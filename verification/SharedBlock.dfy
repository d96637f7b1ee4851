/** One block made by `BytesMut` whose handles live on different threads.

    Each handle is owned by one thread at a time, any number of them act in any order, one access to the reference
    count or to the bytes at a time (sequentially consistent). What a handle is about to do next is part of it, so
    another thread can act between the load of the count and what is done in reliance on it. */
module SharedBlock {

  type Hid = nat

  datatype Pc =
    | Idle
    | Checking   // in `reserve_inner` or a conversion, about to load the count
    | Owning     // loaded 1, about to move the bytes or the vector
    | Copying    // loaded more than 1, about to copy its bytes out
    | Releasing  // about to take its reference off the count

  /** A handle on the bytes from `lo` up to but not including `hi`; a frozen one only reads. */
  datatype Handle = Handle(lo: nat, hi: nat, frozen: bool, pc: Pc)

  /** `freeing` counts those that took the count to zero and have not freed yet, `freed` those that have. */
  datatype State = State(size: nat, count: nat, handles: map<Hid, Handle>, freeing: nat, freed: nat, next: Hid)

  datatype Step =
    | SplitOff(h: Hid, at: nat)
    | Freeze(h: Hid)
    | CloneView(h: Hid)
    | Unsplit(h: Hid, other: Hid)
    | Read(h: Hid, i: nat)
    | Write(h: Hid, i: nat)
    | BeginCheck(h: Hid)
    | LoadCount(h: Hid)
    | TakeWhole(h: Hid, size: nat, lo: nat)
    | CopyOut(h: Hid)
    | BeginDrop(h: Hid)
    | FetchSub(h: Hid)
    | Free

  /** A promoted block and the handle that promoted it. */
  function Init(size: nat, lo: nat): State
    requires lo <= size
  {
    State(size, 1, map[0 := Handle(lo, size, false, Idle)], 0, 0, 1)
  }

  predicate At(st: State, h: Hid, pc: Pc) {
    h in st.handles && st.handles[h].pc == pc
  }

  predicate Enabled(st: State, step: Step) {
    match step
    case SplitOff(h, at) => At(st, h, Idle) && !st.handles[h].frozen && st.handles[h].lo <= at <= st.handles[h].hi
    case Freeze(h) => At(st, h, Idle)
    case CloneView(h) => At(st, h, Idle) && st.handles[h].frozen
    case Unsplit(h, o) =>
      && At(st, h, Idle) && At(st, o, Idle) && h != o && !st.handles[h].frozen && !st.handles[o].frozen
      && st.handles[h].hi == st.handles[o].lo
    case Read(h, i) => At(st, h, Idle) && st.handles[h].lo <= i < st.handles[h].hi
    case Write(h, i) => At(st, h, Idle) && !st.handles[h].frozen && st.handles[h].lo <= i < st.handles[h].hi
    case BeginCheck(h) => At(st, h, Idle)
    case LoadCount(h) => At(st, h, Checking)
    case TakeWhole(h, size, lo) => At(st, h, Owning) && lo <= size
    case CopyOut(h) => At(st, h, Copying)
    case BeginDrop(h) => At(st, h, Idle)
    case FetchSub(h) => At(st, h, Releasing) && st.count > 0
    case Free => st.freeing > 0
  }

  function Set(st: State, h: Hid, handle: Handle): State {
    st.(handles := st.handles[h := handle])
  }

  function Add(st: State, handle: Handle): State {
    st.(count := st.count + 1, handles := st.handles[st.next := handle], next := st.next + 1)
  }

  function Apply(st: State, step: Step): State
    requires Enabled(st, step)
  {
    match step
    case SplitOff(h, at) =>
      var g := st.handles[h];
      Add(Set(st, h, g.(hi := at)), g.(lo := at))
    case Freeze(h) => Set(st, h, st.handles[h].(frozen := true))
    case CloneView(h) => Add(st, st.handles[h])
    case Unsplit(h, o) =>
      var g, e := st.handles[h], st.handles[o];
      Set(Set(st, h, g.(hi := e.hi)), o, e.(lo := e.hi, pc := Releasing))
    case Read(_, _) => st
    case Write(_, _) => st
    case BeginCheck(h) => Set(st, h, st.handles[h].(pc := Checking))
    case LoadCount(h) => Set(st, h, st.handles[h].(pc := if st.count == 1 then Owning else Copying))
    case TakeWhole(h, size, lo) => Set(st, h, Handle(lo, size, false, Idle)).(size := size)
    case CopyOut(h) => Set(st, h, st.handles[h].(pc := Releasing))
    case BeginDrop(h) => Set(st, h, st.handles[h].(pc := Releasing))
    case FetchSub(h) =>
      st.(count := st.count - 1, handles := st.handles - {h}, freeing := st.freeing + if st.count == 1 then 1 else 0)
    case Free => st.(freeing := st.freeing - 1, freed := st.freed + 1)
  }

  // ---- The invariant ----

  predicate Fits(st: State, h: Hid)
    requires h in st.handles
  {
    h < st.next && st.handles[h].lo <= st.handles[h].hi <= st.size
  }

  /** No byte in both, unless both only read. */
  predicate Apart(g: Handle, h: Handle) {
    (g.frozen && h.frozen) || g.hi <= h.lo || h.hi <= g.lo || g.lo == g.hi || h.lo == h.hi
  }

  predicate AllFit(st: State) {
    forall h :: h in st.handles ==> Fits(st, h)
  }

  predicate AllApart(handles: map<Hid, Handle>) {
    forall g, h {:trigger Apart(handles[g], handles[h])} ::
      g in handles && h in handles && g != h ==> Apart(handles[g], handles[h])
  }

  lemma ApartFact(handles: map<Hid, Handle>, g: Hid, h: Hid)
    requires AllApart(handles) && g in handles && h in handles && g != h
    ensures Apart(handles[g], handles[h])
  {
    var fact := Apart(handles[g], handles[h]);
  }

  /** Whoever relies on being alone is alone. */
  predicate OwnersAlone(handles: map<Hid, Handle>) {
    forall g, h :: g in handles && h in handles && handles[g].pc.Owning? ==> g == h
  }

  /** The count is the number of handles, and the block is there, about to go, or gone once. */
  predicate CountOk(st: State) {
    && st.count == |st.handles|
    && st.freeing + st.freed == if st.count == 0 then 1 else 0
  }

  predicate Inv(st: State) {
    AllFit(st) && AllApart(st.handles) && OwnersAlone(st.handles) && CountOk(st)
  }

  lemma InitHolds(size: nat, lo: nat)
    requires lo <= size
    ensures Inv(Init(size, lo))
  {
  }

  lemma SetSize(handles: map<Hid, Handle>, h: Hid, handle: Handle)
    requires h in handles
    ensures |handles[h := handle]| == |handles|
  {
    assert handles[h := handle].Keys == handles.Keys;
    assert |handles[h := handle].Keys| == |handles[h := handle]| && |handles.Keys| == |handles|;
  }

  lemma AddSize(handles: map<Hid, Handle>, h: Hid, handle: Handle)
    requires h !in handles
    ensures |handles[h := handle]| == |handles| + 1
  {
    assert handles[h := handle].Keys == handles.Keys + {h};
    assert |handles[h := handle].Keys| == |handles[h := handle]| && |handles.Keys| == |handles|;
  }

  lemma RemoveSize(handles: map<Hid, Handle>, h: Hid)
    requires h in handles
    ensures |handles - {h}| == |handles| - 1
  {
    assert (handles - {h}).Keys == handles.Keys - {h};
    assert |(handles - {h}).Keys| == |handles - {h}| && |handles.Keys| == |handles|;
  }

  /** A count of one that was loaded by a handle means that there is no other one. */
  lemma OneMeansAlone(handles: map<Hid, Handle>, g: Hid, h: Hid)
    requires |handles| == 1 && g in handles && h in handles
    ensures g == h
  {
    RemoveSize(handles, g);
    if h in handles - {g} {
      RemoveSize(handles - {g}, h);
    }
  }

  /** A handle changes to bytes that are apart from all others and does not claim to be alone. */
  lemma PutKeeps(st: State, h: Hid, handle: Handle)
    requires Inv(st) && h in st.handles && !handle.pc.Owning? && handle.lo <= handle.hi <= st.size
    requires forall g :: g in st.handles && g != h ==> Apart(handle, st.handles[g]) && Apart(st.handles[g], handle)
    ensures Inv(Set(st, h, handle))
  {
    SetSize(st.handles, h, handle);
    assert forall g :: g in st.handles ==> Fits(st, g);
  }

  /** A handle changes within its own bytes. */
  lemma SetKeeps(st: State, h: Hid, handle: Handle)
    requires Inv(st) && h in st.handles && !handle.pc.Owning?
    requires st.handles[h].lo <= handle.lo <= handle.hi <= st.handles[h].hi
    requires st.handles[h].frozen ==> handle.frozen
    ensures Inv(Set(st, h, handle))
  {
    assert Fits(st, h);
    forall g | g in st.handles && g != h
      ensures Apart(handle, st.handles[g]) && Apart(st.handles[g], handle)
    {
      ApartFact(st.handles, h, g);
    }
    PutKeeps(st, h, handle);
  }

  lemma AddKeeps(st: State, handle: Handle)
    requires Inv(st) && handle.lo <= handle.hi <= st.size && !handle.pc.Owning? && st.count > 0
    requires forall g :: g in st.handles ==> Apart(handle, st.handles[g]) && Apart(st.handles[g], handle)
    requires forall g :: g in st.handles ==> !st.handles[g].pc.Owning?
    ensures Inv(Add(st, handle))
  {
    assert forall g :: g in st.handles ==> Fits(st, g);
    AddSize(st.handles, st.next, handle);
  }

  /** A handle that acts shows that nobody relies on being alone but perhaps itself. */
  lemma NoOtherOwner(st: State, h: Hid)
    requires OwnersAlone(st.handles) && h in st.handles && !st.handles[h].pc.Owning?
    ensures forall g :: g in st.handles ==> !st.handles[g].pc.Owning?
  {
  }

  lemma SplitKeeps(st: State, h: Hid, at: nat)
    requires Inv(st) && Enabled(st, SplitOff(h, at))
    ensures Inv(Apply(st, SplitOff(h, at)))
  {
    var g := st.handles[h];
    var low, high := g.(hi := at), g.(lo := at);
    NoOtherOwner(st, h);
    SetKeeps(st, h, low);
    var st1 := Set(st, h, low);
    forall e | e in st1.handles
      ensures Apart(high, st1.handles[e]) && Apart(st1.handles[e], high)
    {
      if e != h {
        ApartFact(st.handles, h, e);
      }
    }
    AddKeeps(st1, high);
  }

  lemma CloneKeeps(st: State, h: Hid)
    requires Inv(st) && Enabled(st, CloneView(h))
    ensures Inv(Apply(st, CloneView(h)))
  {
    var g := st.handles[h];
    NoOtherOwner(st, h);
    forall e | e in st.handles
      ensures Apart(g, st.handles[e]) && Apart(st.handles[e], g)
    {
      if e != h {
        ApartFact(st.handles, h, e);
      }
    }
    AddKeeps(st, g);
  }

  /** The two windows are next to each other, so what is apart from both is apart from the union. */
  lemma UnionApart(g: Handle, e: Handle, j: Handle)
    requires g.lo <= g.hi == e.lo <= e.hi && j.lo <= j.hi && !g.frozen && !e.frozen
    requires Apart(g, j) && Apart(e, j)
    ensures Apart(g.(hi := e.hi), j) && Apart(j, g.(hi := e.hi))
  {
  }

  lemma SwapUpdates(handles: map<Hid, Handle>, h: Hid, x: Handle, o: Hid, y: Handle)
    requires h != o
    ensures handles[h := x][o := y] == handles[o := y][h := x]
  {
  }

  lemma UnsplitKeeps(st: State, h: Hid, o: Hid)
    requires Inv(st) && Enabled(st, Unsplit(h, o))
    ensures Inv(Apply(st, Unsplit(h, o)))
  {
    var g, e := st.handles[h], st.handles[o];
    var both, rest := g.(hi := e.hi), e.(lo := e.hi, pc := Releasing);
    assert Fits(st, h) && Fits(st, o);
    SetKeeps(st, o, rest);
    var st1 := Set(st, o, rest);
    forall j | j in st1.handles && j != h
      ensures Apart(both, st1.handles[j]) && Apart(st1.handles[j], both)
    {
      if j != o {
        assert Fits(st, j);
        ApartFact(st.handles, h, j);
        ApartFact(st.handles, o, j);
        UnionApart(g, e, st.handles[j]);
      }
    }
    PutKeeps(st1, h, both);
    SwapUpdates(st.handles, h, both, o, rest);
  }

  lemma LoadKeeps(st: State, h: Hid)
    requires Inv(st) && Enabled(st, LoadCount(h))
    ensures Inv(Apply(st, LoadCount(h)))
    ensures Apply(st, LoadCount(h)).handles[h].pc.Owning? <==> forall e :: e in st.handles ==> e == h
  {
    var g := st.handles[h];
    if st.count == 1 {
      forall e | e in st.handles
        ensures e == h
      {
        OneMeansAlone(st.handles, e, h);
      }
      SetSize(st.handles, h, g.(pc := Owning));
      assert Fits(st, h);
    } else {
      RemoveSize(st.handles, h);
      var e :| e in st.handles - {h};
      SetKeeps(st, h, g.(pc := Copying));
    }
  }

  /** What the only holder does to the whole block gets in nobody's way. */
  lemma TakeWholeKeeps(st: State, h: Hid, size: nat, lo: nat)
    requires Inv(st) && Enabled(st, TakeWhole(h, size, lo))
    ensures Inv(Apply(st, TakeWhole(h, size, lo)))
  {
    SetSize(st.handles, h, Handle(lo, size, false, Idle));
    assert forall e :: e in st.handles ==> e == h;
    assert Fits(st, h);
  }

  lemma FetchSubKeeps(st: State, h: Hid)
    requires Inv(st) && Enabled(st, FetchSub(h))
    ensures Inv(Apply(st, FetchSub(h)))
  {
    RemoveSize(st.handles, h);
    var st' := Apply(st, FetchSub(h));
    forall e | e in st'.handles
      ensures Fits(st', e)
    {
      assert Fits(st, e);
    }
  }

  /** Every access by any handle keeps the invariant. */
  lemma StepKeeps(st: State, step: Step)
    requires Inv(st) && Enabled(st, step)
    ensures Inv(Apply(st, step))
  {
    match step
    case SplitOff(h, at) => SplitKeeps(st, h, at);
    case Freeze(h) => { assert Fits(st, h); SetKeeps(st, h, st.handles[h].(frozen := true)); }
    case CloneView(h) => CloneKeeps(st, h);
    case Unsplit(h, o) => UnsplitKeeps(st, h, o);
    case BeginCheck(h) => { assert Fits(st, h); SetKeeps(st, h, st.handles[h].(pc := Checking)); }
    case LoadCount(h) => LoadKeeps(st, h);
    case TakeWhole(h, size, lo) => TakeWholeKeeps(st, h, size, lo);
    case CopyOut(h) => { assert Fits(st, h); SetKeeps(st, h, st.handles[h].(pc := Releasing)); }
    case BeginDrop(h) => { assert Fits(st, h); SetKeeps(st, h, st.handles[h].(pc := Releasing)); }
    case FetchSub(h) => FetchSubKeeps(st, h);
    case Read(_, _) =>
    case Write(_, _) =>
    case Free =>
  }

  // ---- Runs ----

  ghost predicate IsRun(states: seq<State>, steps: seq<Step>) {
    && |states| == |steps| + 1
    && (exists size: nat, lo: nat :: lo <= size && states[0] == Init(size, lo))
    && (forall i :: 0 <= i < |steps| ==> Enabled(states[i], steps[i]) && states[i + 1] == Apply(states[i], steps[i]))
  }

  lemma {:induction false} RunKeeps(states: seq<State>, steps: seq<Step>, i: nat)
    requires IsRun(states, steps) && i < |states|
    ensures Inv(states[i])
  {
    if i == 0 {
      var size: nat, lo: nat :| lo <= size && states[0] == Init(size, lo);
      InitHolds(size, lo);
    } else {
      RunKeeps(states, steps, i - 1);
      StepKeeps(states[i - 1], steps[i - 1]);
    }
  }

  /** In every state of every run: whoever loaded the count 1 is the only handle until it has written, the count is the
      number of handles, the block goes at most once and never while there is a handle, and once, in the end. */
  lemma Safety(states: seq<State>, steps: seq<Step>, i: nat)
    requires IsRun(states, steps) && i < |states|
    ensures var st := states[i];
            && (forall g, h :: g in st.handles && h in st.handles && st.handles[g].pc.Owning? ==> g == h)
            && st.count == |st.handles|
            && (st.handles != map[] ==> st.freeing == 0 && st.freed == 0)
            && st.freeing + st.freed <= 1
            && (st.handles == map[] && st.freeing == 0 ==> st.freed == 1)
  {
    RunKeeps(states, steps, i);
    var st := states[i];
    assert st.handles == map[] <==> |st.handles| == 0 by {
      if h :| h in st.handles {
        RemoveSize(st.handles, h);
      }
    }
  }

  // ---- What becomes of the bytes ----

  /** Some handle reaches a byte, to read it only or also to write it. */
  ghost predicate Reached(st: State, i: nat, frozen: bool) {
    exists h :: h in st.handles && st.handles[h].frozen == frozen && st.handles[h].lo <= i < st.handles[h].hi
  }

  lemma ReachedBy(st: State, h: Hid, i: nat)
    requires h in st.handles && st.handles[h].lo <= i < st.handles[h].hi
    ensures Reached(st, i, st.handles[h].frozen)
  {
  }

  predicate Reshapes(step: Step) {
    step.SplitOff? || step.Unsplit? || step.CloneView?
  }

  lemma StillReached(st: State, step: Step, g: Hid, i: nat)
    requires Inv(st) && Enabled(st, step) && Reshapes(step) && st.next !in st.handles
    requires g in st.handles && st.handles[g].lo <= i < st.handles[g].hi
    ensures Reached(Apply(st, step), i, st.handles[g].frozen)
  {
    var st' := Apply(st, step);
    assert Fits(st, step.h);
    if step.SplitOff? && g == step.h && i >= step.at {
      ReachedBy(st', st.next, i);
    } else if step.Unsplit? && g == step.other {
      ReachedBy(st', step.h, i);
    } else {
      ReachedBy(st', g, i);
    }
  }

  lemma WasReached(st: State, step: Step, g: Hid, i: nat)
    requires Inv(st) && Enabled(st, step) && Reshapes(step) && st.next !in st.handles
    requires var st' := Apply(st, step);
             g in st'.handles && st'.handles[g].lo <= i < st'.handles[g].hi
    ensures Reached(st, i, Apply(st, step).handles[g].frozen)
  {
    if g == st.next {
      ReachedBy(st, step.h, i);
    } else if step.Unsplit? && g == step.h && i >= st.handles[g].hi {
      ReachedBy(st, step.other, i);
    } else {
      ReachedBy(st, g, i);
    }
  }

  /** Splitting, joining and cloning lose no byte and reach none that was not reached before. */
  lemma NoByteLost(st: State, step: Step, i: nat, frozen: bool)
    requires Inv(st) && Enabled(st, step) && Reshapes(step)
    ensures Reached(Apply(st, step), i, frozen) <==> Reached(st, i, frozen)
  {
    var st' := Apply(st, step);
    assert st.next in st.handles ==> Fits(st, st.next);
    if Reached(st, i, frozen) {
      var g :| g in st.handles && st.handles[g].frozen == frozen && st.handles[g].lo <= i < st.handles[g].hi;
      StillReached(st, step, g, i);
    }
    if Reached(st', i, frozen) {
      var g :| g in st'.handles && st'.handles[g].frozen == frozen && st'.handles[g].lo <= i < st'.handles[g].hi;
      WasReached(st, step, g, i);
    }
  }

  /** What a handle in the middle of an operation does next. */
  function NextStep(st: State, h: Hid): Step
    requires h in st.handles && !st.handles[h].pc.Idle?
  {
    match st.handles[h].pc
    case Checking => LoadCount(h)
    case Owning => TakeWhole(h, st.size, st.handles[h].lo)
    case Copying => CopyOut(h)
    case Releasing => FetchSub(h)
  }

  /** No handle is ever stuck in an operation, and a block without handles can be freed. */
  lemma NeverStuck(st: State, h: Hid)
    requires Inv(st)
    ensures h in st.handles && !st.handles[h].pc.Idle? ==> Enabled(st, NextStep(st, h))
    ensures st.handles == map[] && st.freed == 0 ==> Enabled(st, Free)
  {
    if h in st.handles {
      assert Fits(st, h);
      RemoveSize(st.handles, h);
    }
  }

  // ---- Races ----

  /** The bytes of the block that a step touches, and whether it changes them; to give the buffer back, or to move it,
      changes them all. */
  datatype Footprint = Footprint(lo: nat, hi: nat, writes: bool)

  function Touches(st: State, step: Step): Footprint
    requires Enabled(st, step)
  {
    match step
    case Read(_, i) => Footprint(i, i + 1, false)
    case Write(_, i) => Footprint(i, i + 1, true)
    case TakeWhole(_, size, _) => Footprint(0, st.size + size, true)
    case CopyOut(h) => Footprint(st.handles[h].lo, st.handles[h].hi, false)
    case Free => Footprint(0, st.size, true)
    case _ => Footprint(0, 0, false)
  }

  /** Whether two steps act for the same handle, or both free. */
  predicate SameActor(a: Step, b: Step) {
    if a.Free? || b.Free? then a.Free? && b.Free?
    else
      || a.h == b.h || (a.Unsplit? && a.other == b.h) || (b.Unsplit? && b.other == a.h)
      || (a.Unsplit? && b.Unsplit? && a.other == b.other)
  }

  predicate Conflict(f: Footprint, g: Footprint) {
    (f.writes || g.writes) && f.lo < g.hi && g.lo < f.hi && f.lo < f.hi && g.lo < g.hi
  }

  /** In no state of any run can two handles access the same byte next when one of them changes it, nor can one touch
      the block while another is about to free it. */
  lemma NoRace(states: seq<State>, steps: seq<Step>, i: nat, a: Step, b: Step)
    requires IsRun(states, steps) && i < |states|
    requires Enabled(states[i], a) && Enabled(states[i], b) && !SameActor(a, b)
    ensures !Conflict(Touches(states[i], a), Touches(states[i], b))
  {
    RunKeeps(states, steps, i);
    var st := states[i];
    if a.Free? {
      FreeIsAlone(st, b);
    } else if b.Free? {
      FreeIsAlone(st, a);
    } else {
      assert Fits(st, a.h) && Fits(st, b.h);
      ApartFact(st.handles, a.h, b.h);
    }
  }

  lemma FreeIsAlone(st: State, b: Step)
    requires Inv(st) && st.freeing > 0 && !b.Free?
    ensures !Enabled(st, b)
  {
    if b.h in st.handles {
      RemoveSize(st.handles, b.h);
    }
  }
}
