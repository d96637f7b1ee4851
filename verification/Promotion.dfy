/** The race to promote one boxed `Bytes`.

    Any number of threads clone the same un-promoted `Bytes` through shared references, clone and drop the
    results, and take the buffer over, one atomic access at a time and in any order (sequentially
    consistent). A clone that finds the word raw builds its own `Shared` block and tries to install it with
    a compare-and-swap; whoever loses throws its block away and counts itself in the winner's. */
module Promotion {
  type Block = nat
  type Tid = nat
  type View = nat

  /** The atomic word of the original `Bytes`. */
  datatype Slot = Raw | Installed(block: Block)

  datatype Pc =
    | Idle
    | Loading                  // clone: about to load the word
    | Built(block: Block)      // saw it raw and built a block of count 2: about to compare and swap
    | Counting(block: Block)   // knows the installed block: about to add a reference
    | Freeing(block: Block)    // took the count from 1 to 0: about to free the block and the buffer

  /** `base` says that the original is alive, `views` are the clones that are, `gone` counts how often the
      buffer was freed or handed over to a vector. */
  datatype State = State(
    slot: Slot, counts: map<Block, nat>, base: bool, views: set<View>, threads: map<Tid, Pc>,
    gone: nat, nextBlock: nat, nextView: nat)

  datatype Step =
    | BeginClone(t: Tid)
    | Load(t: Tid)
    | CompareAndSwap(t: Tid)
    | AddReference(t: Tid)
    | CloneView(v: View)
    | DropView(t: Tid, v: View)
    | DropBase(t: Tid)
    | Free(t: Tid)
    | TakeOver(v: View)
    | TakeOverBase

  function Init(threads: set<Tid>): State {
    State(Raw, map[], true, {}, map t | t in threads :: Idle, 0, 0, 0)
  }

  predicate Cloning(pc: Pc) {
    pc.Loading? || pc.Built? || pc.Counting?
  }

  /** What a thread may do next. A value is dropped or taken over only by its owner, so not while it is
      borrowed by a clone in progress. */
  predicate Enabled(st: State, step: Step) {
    match step
    case BeginClone(t) => t in st.threads && st.threads[t].Idle? && st.base
    case Load(t) => t in st.threads && st.threads[t].Loading?
    case CompareAndSwap(t) => t in st.threads && st.threads[t].Built?
    case AddReference(t) => t in st.threads && st.threads[t].Counting? && st.threads[t].block in st.counts
    case CloneView(v) => v in st.views && st.slot.Installed? && st.slot.block in st.counts
    case DropView(t, v) =>
      && t in st.threads && st.threads[t].Idle? && v in st.views && st.slot.Installed?
      && st.slot.block in st.counts && st.counts[st.slot.block] > 0
    case DropBase(t) =>
      && t in st.threads && st.threads[t].Idle? && st.base
      && (forall u :: u in st.threads ==> !Cloning(st.threads[u]))
      && (st.slot.Installed? ==> st.slot.block in st.counts && st.counts[st.slot.block] > 0)
    case Free(t) => t in st.threads && st.threads[t].Freeing?
    case TakeOver(v) =>
      && v in st.views && st.slot.Installed? && st.slot.block in st.counts && st.counts[st.slot.block] == 1
    case TakeOverBase =>
      && st.base && (forall u :: u in st.threads ==> !Cloning(st.threads[u]))
      && (st.slot.Installed? ==> st.slot.block in st.counts && st.counts[st.slot.block] == 1)
  }

  /** One reference to the installed block is given up; the count tells whether it was the last one. */
  function Decrement(st: State, t: Tid): State
    requires st.slot.Installed? && st.slot.block in st.counts && st.counts[st.slot.block] > 0
  {
    var b := st.slot.block;
    var pc := if st.counts[b] == 1 then Freeing(b) else Idle;
    st.(counts := st.counts[b := st.counts[b] - 1], threads := st.threads[t := pc])
  }

  function NewView(st: State): State {
    st.(views := st.views + {st.nextView}, nextView := st.nextView + 1)
  }

  function Apply(st: State, step: Step): State
    requires Enabled(st, step)
  {
    match step
    case BeginClone(t) => st.(threads := st.threads[t := Loading])
    case Load(t) =>
      (match st.slot
       case Raw =>
         st.(counts := st.counts[st.nextBlock := 2], nextBlock := st.nextBlock + 1,
             threads := st.threads[t := Built(st.nextBlock)])
       case Installed(b) => st.(threads := st.threads[t := Counting(b)]))
    case CompareAndSwap(t) =>
      (match st.slot
       case Raw => NewView(st.(slot := Installed(st.threads[t].block), threads := st.threads[t := Idle]))
       case Installed(b) =>
         st.(counts := st.counts - {st.threads[t].block}, threads := st.threads[t := Counting(b)]))
    case AddReference(t) =>
      var b := st.threads[t].block;
      NewView(st.(counts := st.counts[b := st.counts[b] + 1], threads := st.threads[t := Idle]))
    case CloneView(v) =>
      var b := st.slot.block;
      NewView(st.(counts := st.counts[b := st.counts[b] + 1]))
    case DropView(t, v) => Decrement(st.(views := st.views - {v}), t)
    case DropBase(t) =>
      if st.slot.Raw? then st.(base := false, gone := st.gone + 1) else Decrement(st.(base := false), t)
    case Free(t) =>
      st.(counts := st.counts - {st.threads[t].block}, threads := st.threads[t := Idle], gone := st.gone + 1)
    case TakeOver(v) =>
      st.(views := st.views - {v}, counts := st.counts - {st.slot.block}, gone := st.gone + 1)
    case TakeOverBase =>
      var counts := if st.slot.Installed? then st.counts - {st.slot.block} else st.counts;
      st.(base := false, counts := counts, gone := st.gone + 1)
  }

  // ---- The invariant ----

  function References(st: State): nat {
    |st.views| + if st.base then 1 else 0
  }

  /** Blocks that only their builder knows. */
  predicate PrivateOk(st: State) {
    && (forall t :: t in st.threads && st.threads[t].Built? ==>
          && st.threads[t].block in st.counts && st.counts[st.threads[t].block] == 2
          && st.slot != Installed(st.threads[t].block))
    && (forall t, u :: t in st.threads && u in st.threads && st.threads[t].Built? && st.threads[u].Built? && t != u ==>
          st.threads[t].block != st.threads[u].block)
  }

  predicate Known(st: State, b: Block) {
    st.slot == Installed(b) || exists t :: t in st.threads && st.threads[t] == Built(b)
  }

  /** Every block in memory is the installed one or somebody's private one. */
  predicate NoStrayBlock(st: State) {
    forall b :: b in st.counts ==> b < st.nextBlock && Known(st, b)
  }

  predicate BorrowsOk(st: State) {
    forall t :: t in st.threads && Cloning(st.threads[t]) ==> st.base
  }

  predicate FreeingOk(st: State) {
    && (forall t, u :: t in st.threads && u in st.threads && st.threads[t].Freeing? && st.threads[u].Freeing? ==>
          t == u)
    && (forall t :: t in st.threads && st.threads[t].Freeing? ==>
          && st.slot == Installed(st.threads[t].block)
          && st.threads[t].block in st.counts && st.counts[st.threads[t].block] == 0)
  }

  /** Before promotion there is only the original; afterwards the installed block counts the references,
      or is gone together with all of them. */
  predicate CountOk(st: State) {
    match st.slot
    case Raw =>
      && st.views == {} && st.gone == (if st.base then 0 else 1)
      && (forall t :: t in st.threads ==> !st.threads[t].Counting? && !st.threads[t].Freeing?)
    case Installed(b) =>
      && b < st.nextBlock
      && (forall t :: t in st.threads && st.threads[t].Counting? ==> st.threads[t].block == b)
      && (if b in st.counts then
            && st.counts[b] == References(st) && st.gone == 0
            && (st.counts[b] == 0 ==> exists t :: t in st.threads && st.threads[t] == Freeing(b))
          else References(st) == 0 && st.gone == 1)
  }

  predicate Inv(st: State) {
    && PrivateOk(st) && NoStrayBlock(st) && BorrowsOk(st) && FreeingOk(st) && CountOk(st)
    && (forall v :: v in st.views ==> v < st.nextView)
  }

  lemma InitHolds(threads: set<Tid>)
    ensures Inv(Init(threads))
  {
  }

  /** A private block of another thread, or the installed block, is still accounted for. */
  lemma StillKnown(st: State, st': State, t: Tid, b: Block)
    requires NoStrayBlock(st) && b in st.counts && st'.nextBlock >= st.nextBlock
    requires t in st'.threads && st'.threads == st.threads[t := st'.threads[t]]
    requires t in st.threads && st.threads[t] != Built(b)
    requires st.slot == Installed(b) ==> st'.slot == Installed(b)
    ensures b < st'.nextBlock && Known(st', b)
  {
    if st.slot != Installed(b) {
      var u :| u in st.threads && st.threads[u] == Built(b);
      assert st'.threads[u] == Built(b);
    }
  }

  lemma LoadKeeps(st: State, t: Tid)
    requires Inv(st) && Enabled(st, Load(t))
    ensures Inv(Apply(st, Load(t)))
  {
    var st' := Apply(st, Load(t));
    forall b | b in st.counts
      ensures b < st'.nextBlock && Known(st', b)
    {
      StillKnown(st, st', t, b);
    }
    if st.slot.Raw? {
      assert st'.threads[t] == Built(st.nextBlock);
    }
  }

  /** The winner: the original and the new clone are the two references of the installed block. */
  lemma WinKeeps(st: State, t: Tid)
    requires Inv(st) && Enabled(st, CompareAndSwap(t)) && st.slot.Raw?
    ensures Inv(Apply(st, CompareAndSwap(t)))
  {
    var st' := Apply(st, CompareAndSwap(t));
    forall b | b in st'.counts && b != st.threads[t].block
      ensures b < st'.nextBlock && Known(st', b)
    {
      StillKnown(st, st', t, b);
    }
  }

  /** A loser: its block goes away, the buffer does not. */
  lemma LoseKeeps(st: State, t: Tid)
    requires Inv(st) && Enabled(st, CompareAndSwap(t)) && st.slot.Installed?
    ensures Inv(Apply(st, CompareAndSwap(t)))
    ensures Apply(st, CompareAndSwap(t)).gone == st.gone
  {
    var st' := Apply(st, CompareAndSwap(t));
    forall b | b in st'.counts
      ensures b < st'.nextBlock && Known(st', b)
    {
      StillKnown(st, st', t, b);
    }
  }

  lemma AddReferenceKeeps(st: State, t: Tid)
    requires Inv(st) && Enabled(st, AddReference(t))
    ensures Inv(Apply(st, AddReference(t)))
  {
    var st' := Apply(st, AddReference(t));
    forall b | b in st'.counts
      ensures b < st'.nextBlock && Known(st', b)
    {
      StillKnown(st, st', t, b);
    }
  }

  lemma DecrementKeeps(st: State, st0: State, t: Tid)
    requires Inv(st) && st.slot.Installed? && t in st.threads && st.threads[t].Idle?
    requires st.slot.block in st.counts && st.counts[st.slot.block] > 0
    requires st0 == st.(views := st0.views, base := st0.base) && st0.views <= st.views
    requires References(st0) == References(st) - 1
    requires st0.base || forall u :: u in st.threads ==> !Cloning(st.threads[u])
    ensures Inv(Decrement(st0, t))
  {
    var st' := Decrement(st0, t);
    forall b | b in st'.counts
      ensures b < st'.nextBlock && Known(st', b)
    {
      StillKnown(st, st', t, b);
    }
    assert st'.threads[t].Freeing? ==> st'.threads[t] == Freeing(st.slot.block);
  }

  lemma FreeKeeps(st: State, t: Tid)
    requires Inv(st) && Enabled(st, Free(t))
    ensures Inv(Apply(st, Free(t)))
  {
    var st' := Apply(st, Free(t));
    forall b | b in st'.counts
      ensures b < st'.nextBlock && Known(st', b)
    {
      StillKnown(st, st', t, b);
    }
  }

  lemma BeginCloneKeeps(st: State, t: Tid)
    requires Inv(st) && Enabled(st, BeginClone(t))
    ensures Inv(Apply(st, BeginClone(t)))
  {
    var st' := Apply(st, BeginClone(t));
    forall b | b in st'.counts
      ensures b < st'.nextBlock && Known(st', b)
    {
      StillKnown(st, st', t, b);
    }
  }

  lemma ViewStepKeeps(st: State, v: View)
    requires Inv(st) && v in st.views
    ensures Enabled(st, CloneView(v)) ==> Inv(Apply(st, CloneView(v)))
    ensures Enabled(st, TakeOver(v)) ==> Inv(Apply(st, TakeOver(v)))
  {
    if Enabled(st, TakeOver(v)) {
      assert st.views - {v} == {} && !st.base by {
        assert |st.views - {v}| == |st.views| - 1;
      }
    }
  }

  /** The original turns into a vector or a `BytesMut`, with its boxed buffer or as the only holder of its block. */
  lemma TakeOverBaseKeeps(st: State)
    requires Inv(st) && Enabled(st, TakeOverBase)
    ensures Inv(Apply(st, TakeOverBase))
  {
    if st.slot.Installed? {
      assert st.views == {};
    }
  }

  /** Every atomic access by any thread keeps the invariant. */
  lemma StepKeeps(st: State, step: Step)
    requires Inv(st) && Enabled(st, step)
    ensures Inv(Apply(st, step))
  {
    match step
    case BeginClone(t) => BeginCloneKeeps(st, t);
    case Load(t) => LoadKeeps(st, t);
    case CompareAndSwap(t) =>
      if st.slot.Raw? {
        WinKeeps(st, t);
      } else {
        LoseKeeps(st, t);
      }
    case AddReference(t) => AddReferenceKeeps(st, t);
    case CloneView(v) => ViewStepKeeps(st, v);
    case DropView(t, v) => DecrementKeeps(st, st.(views := st.views - {v}), t);
    case DropBase(t) =>
      if st.slot.Installed? {
        DecrementKeeps(st, st.(base := false), t);
      }
    case Free(t) => FreeKeeps(st, t);
    case TakeOver(v) => ViewStepKeeps(st, v);
    case TakeOverBase => TakeOverBaseKeeps(st);
  }

  // ---- Runs ----

  ghost predicate IsRun(states: seq<State>, steps: seq<Step>) {
    && |states| == |steps| + 1
    && (exists threads: set<Tid> :: states[0] == Init(threads))
    && (forall i :: 0 <= i < |steps| ==> Enabled(states[i], steps[i]) && states[i + 1] == Apply(states[i], steps[i]))
  }

  lemma {:induction false} RunKeeps(states: seq<State>, steps: seq<Step>, i: nat)
    requires IsRun(states, steps) && i < |states|
    ensures Inv(states[i])
  {
    if i == 0 {
      var threads: set<Tid> :| states[0] == Init(threads);
      InitHolds(threads);
    } else {
      RunKeeps(states, steps, i - 1);
      StepKeeps(states[i - 1], steps[i - 1]);
    }
  }

  lemma {:induction false} InstalledForGood(states: seq<State>, steps: seq<Step>, i: nat, j: nat)
    requires IsRun(states, steps) && i <= j < |states| && states[i].slot.Installed?
    ensures states[j].slot == states[i].slot
    decreases j
  {
    if i < j {
      InstalledForGood(states, steps, i, j - 1);
      assert Enabled(states[j - 1], steps[j - 1]);
    }
  }

  /** In every state of every run: the buffer is gone at most once and never while a reference is left;
      the installed block counts the references exactly; nobody is about to touch a block that does not
      exist; the only other blocks are those of clones still
      in flight, so every losing block was discarded; at most one block is ever installed; and when all
      references are gone and no thread is busy, the buffer is gone and no block is left. */
  lemma Safety(states: seq<State>, steps: seq<Step>, i: nat)
    requires IsRun(states, steps) && i < |states|
    ensures var st := states[i];
            && st.gone <= 1 && (References(st) > 0 ==> st.gone == 0)
            && (st.slot.Installed? && References(st) > 0 ==>
                  st.slot.block in st.counts && st.counts[st.slot.block] == References(st))
            && (st.views != {} ==> st.slot.Installed? && References(st) > 0)
            && (forall t :: t in st.threads && (st.threads[t].Counting? || st.threads[t].Freeing?) ==>
                  st.threads[t].block in st.counts && st.slot == Installed(st.threads[t].block))
            && (forall b :: b in st.counts && st.slot != Installed(b) ==>
                  exists t :: t in st.threads && st.threads[t] == Built(b))
            && (forall j :: i <= j < |states| && st.slot.Installed? ==> states[j].slot == st.slot)
            && (References(st) == 0 && (forall t :: t in st.threads ==> st.threads[t].Idle?) ==>
                  st.gone == 1 && st.counts == map[])
  {
    RunKeeps(states, steps, i);
    var st := states[i];
    forall j | i <= j < |states| && st.slot.Installed?
      ensures states[j].slot == st.slot
    {
      InstalledForGood(states, steps, i, j);
    }
    if References(st) == 0 && (forall t :: t in st.threads ==> st.threads[t].Idle?) {
      forall b | b in st.counts
        ensures false
      {
      }
    }
  }

  // ---- Every clone is delivered ----

  /** Clones asked for, of the original and of clones, and clones given up. */
  function Asked(steps: seq<Step>): nat {
    if steps == [] then 0 else Asked(steps[..|steps| - 1]) + AskedBy(steps[|steps| - 1])
  }

  function GivenUp(steps: seq<Step>): nat {
    if steps == [] then 0 else GivenUp(steps[..|steps| - 1]) + GivenUpBy(steps[|steps| - 1])
  }

  function AskedBy(step: Step): nat {
    if step.BeginClone? || step.CloneView? then 1 else 0
  }

  function GivenUpBy(step: Step): nat {
    if step.DropView? || step.TakeOver? then 1 else 0
  }

  /** The threads with a clone of the original in flight. */
  function InFlight(threads: map<Tid, Pc>): set<Tid> {
    set t | t in threads && Cloning(threads[t])
  }

  lemma OneOf(s: set<Tid>, t: Tid)
    ensures |s| == |s - {t}| + if t in s then 1 else 0
  {
  }

  lemma InFlightUpdated(threads: map<Tid, Pc>, t: Tid, pc: Pc)
    requires t in threads
    ensures |InFlight(threads[t := pc])| ==
            |InFlight(threads)| - (if Cloning(threads[t]) then 1 else 0) + if Cloning(pc) then 1 else 0
  {
    SameOthers(threads, t, pc);
    OneOf(InFlight(threads), t);
    OneOf(InFlight(threads[t := pc]), t);
  }

  lemma SameOthers(threads: map<Tid, Pc>, t: Tid, pc: Pc)
    ensures InFlight(threads) - {t} == InFlight(threads[t := pc]) - {t}
  {
  }

  /** Whether a step hands a new clone to its caller. */
  function Delivers(st: State, step: Step): nat {
    if (step.CompareAndSwap? && st.slot.Raw?) || step.AddReference? || step.CloneView? then 1 else 0
  }

  lemma StepViews(st: State, step: Step)
    requires Inv(st) && Enabled(st, step)
    ensures |Apply(st, step).views| + GivenUpBy(step) == |st.views| + Delivers(st, step)
  {
    assert st.nextView !in st.views;
  }

  lemma StepFlights(st: State, step: Step)
    requires Inv(st) && Enabled(st, step)
    ensures |InFlight(Apply(st, step).threads)| + Delivers(st, step) == |InFlight(st.threads)| + AskedBy(step)
  {
    var threads, threads' := st.threads, Apply(st, step).threads;
    if !step.CloneView? && !step.TakeOver? && !step.TakeOverBase? {
      var pc := threads'[step.t];
      assert threads' == threads[step.t := pc];
      InFlightUpdated(threads, step.t, pc);
    }
  }

  lemma StepBase(st: State, step: Step)
    requires Enabled(st, step)
    ensures Apply(st, step).base <==> st.base && !step.DropBase? && !step.TakeOverBase?
  {
  }

  /** Conservation over any run: the clones asked for are the ones alive, those given up and those in flight, each of
      which is one thread; so a clone is delivered once and none appears unasked.  The original lives until it is
      dropped or taken over. */
  lemma {:induction false} ClonesAreDelivered(states: seq<State>, steps: seq<Step>, i: nat)
    requires IsRun(states, steps) && i < |states|
    ensures Asked(steps[..i]) == |states[i].views| + GivenUp(steps[..i]) + |InFlight(states[i].threads)|
    ensures states[i].base <==> forall j :: 0 <= j < i ==> !steps[j].DropBase? && !steps[j].TakeOverBase?
  {
    if i == 0 {
      assert InFlight(states[0].threads) == {};
    } else {
      ClonesAreDelivered(states, steps, i - 1);
      RunKeeps(states, steps, i - 1);
      assert steps[..i][..i - 1] == steps[..i - 1];
      assert Enabled(states[i - 1], steps[i - 1]);
      StepViews(states[i - 1], steps[i - 1]);
      StepFlights(states[i - 1], steps[i - 1]);
      StepBase(states[i - 1], steps[i - 1]);
    }
  }

  /** How many steps a busy thread has left at most, and its next one. */
  function Rank(pc: Pc): nat {
    match pc
    case Idle => 0
    case Loading => 3
    case Built(_) => 2
    case Counting(_) => 1
    case Freeing(_) => 1
  }

  function NextStep(t: Tid, pc: Pc): Step
    requires !pc.Idle?
  {
    match pc
    case Loading => Load(t)
    case Built(_) => CompareAndSwap(t)
    case Counting(_) => AddReference(t)
    case Freeing(_) => Free(t)
  }

  /** Whatever the others do, a busy thread can always go on, and is done after at most three steps of its own. */
  lemma NeverStuck(st: State, t: Tid)
    requires Inv(st) && t in st.threads && !st.threads[t].Idle?
    ensures var step := NextStep(t, st.threads[t]);
            && Enabled(st, step) && t in Apply(st, step).threads
            && Rank(Apply(st, step).threads[t]) < Rank(st.threads[t])
  {
  }

  lemma OthersKeepMyPlace(st: State, step: Step, t: Tid)
    requires Enabled(st, step) && t in st.threads
    requires step.CloneView? || step.TakeOver? || step.TakeOverBase? || step.t != t
    ensures t in Apply(st, step).threads && Apply(st, step).threads[t] == st.threads[t]
  {
  }

  /** `AddReference` as written loads the count without adding to it. */
  function AddReferenceAsWritten(st: State, t: Tid): State
    requires Enabled(st, AddReference(t))
  {
    NewView(st.(threads := st.threads[t := Idle]))
  }

  /** From every sound state the count falls one behind the references, so the buffer would go while one of them is
      left. */
  lemma AddReferenceAsWrittenMiscounts(st: State, t: Tid)
    requires Inv(st) && Enabled(st, AddReference(t))
    ensures var st' := AddReferenceAsWritten(st, t);
            && st'.slot.Installed? && st'.slot.block in st'.counts
            && st'.counts[st'.slot.block] + 1 == References(st') && !Inv(st')
  {
    assert |st.views + {st.nextView}| == |st.views| + 1;
  }
}
