/** The stamped lock and the lock-based loads and stores of `AtomicCell`.

    One stripe of the lock table: any set of cells that share a lock, any number of threads, one shared
    access at a time in any order (sequentially consistent). Values have several words and are read and
    written word by word, so an unprotected read can see a mix of two values. */
module SeqLock {
  import opened Arithmetic
  import opened Wrappers

  type Tid = nat
  type Addr = nat
  type Value = seq<nat>

  const LOCKED: nat := 1

  datatype Pc =
    | Idle
    | LoadStart(a: Addr)
    | Reading(a: Addr, stamp: nat, got: Value, begin: nat)  // optimistic; `begin` stores were committed at the stamp
    | LoadLock(a: Addr)                                     // in `write`, about to swap
    | LockedRead(a: Addr, previous: nat, got: Value)        // holds the guard
    | StoreLock(a: Addr, value: Value)                      // in `write`, about to swap
    | Writing(a: Addr, value: Value, previous: nat, done: nat)  // holds the guard

  /** `log` is the stores whose guard has been dropped, in that order. */
  datatype State = State(
    init: map<Addr, Value>, log: seq<(Addr, Value)>, lock: nat, mem: map<Addr, Value>, threads: map<Tid, Pc>)

  datatype Step =
    | BeginLoad(t: Tid, a: Addr)
    | OptimisticRead(t: Tid)
    | ReadWord(t: Tid)
    | ValidateRead(t: Tid)
    | Swap(t: Tid)
    | Abort(t: Tid)
    | BeginStore(t: Tid, a: Addr, value: Value)
    | WriteWord(t: Tid)
    | DropGuard(t: Tid)

  /** The last committed value of a cell. */
  function Current(init: map<Addr, Value>, log: seq<(Addr, Value)>, a: Addr): Value
    requires a in init
  {
    if log == [] then init[a]
    else if log[|log| - 1].0 == a then log[|log| - 1].1
    else Current(init, log[..|log| - 1], a)
  }

  /** The word of a free lock after `n` committed stores. */
  function Stamp(n: nat): nat {
    2 * n % WORD
  }

  predicate Holds(pc: Pc) {
    pc.LockedRead? || pc.Writing?
  }

  function Init(init: map<Addr, Value>, threads: set<Tid>): State {
    State(init, [], 0, init, map t | t in threads :: Idle)
  }

  predicate At(st: State, t: Tid) {
    t in st.threads && (st.threads[t].Idle? || (st.threads[t].a in st.mem && st.threads[t].a in st.init))
  }

  predicate Enabled(st: State, step: Step) {
    At(st, step.t) &&
    var pc := st.threads[step.t];
    match step
    case BeginLoad(t, a) => pc.Idle? && a in st.init
    case OptimisticRead(t) => pc.LoadStart?
    case ReadWord(t) => (pc.Reading? || pc.LockedRead?) && |pc.got| < |st.mem[pc.a]|
    case ValidateRead(t) => pc.Reading? && |pc.got| == |st.mem[pc.a]|
    case Swap(t) => pc.LoadLock? || pc.StoreLock?
    case Abort(t) => pc.LockedRead? && |pc.got| == |st.mem[pc.a]|
    case BeginStore(t, a, value) => pc.Idle? && a in st.init && |value| == |st.init[a]|
    case WriteWord(t) => pc.Writing? && pc.done < |pc.value| && pc.done < |st.mem[pc.a]|
    case DropGuard(t) => pc.Writing? && pc.done == |pc.value|
  }

  /** `write` grants the guard when the swap took the lock from free to locked, as meant. */
  predicate Grants(previous: nat) {
    previous != LOCKED
  }

  /** The value a completing step returns to its caller. */
  predicate Returns(st: State, step: Step) {
    Enabled(st, step) && (step.Abort? || (step.ValidateRead? && st.lock == st.threads[step.t].stamp))
  }

  function Apply(st: State, step: Step): State
    requires Enabled(st, step)
  {
    var t := step.t;
    var pc := st.threads[t];
    match step
    case BeginLoad(_, a) => st.(threads := st.threads[t := LoadStart(a)])
    case OptimisticRead(_) =>
      var next := if st.lock == LOCKED then LoadLock(pc.a) else Reading(pc.a, st.lock, [], |st.log|);
      st.(threads := st.threads[t := next])
    case ReadWord(_) => st.(threads := st.threads[t := pc.(got := pc.got + [st.mem[pc.a][|pc.got|]])])
    case ValidateRead(_) =>
      st.(threads := st.threads[t := if st.lock == pc.stamp then Idle else LoadLock(pc.a)])
    case Swap(_) =>
      if !Grants(st.lock) then st
      else
        var next := if pc.LoadLock? then LockedRead(pc.a, st.lock, []) else Writing(pc.a, pc.value, st.lock, 0);
        st.(lock := LOCKED, threads := st.threads[t := next])
    case Abort(_) => st.(lock := pc.previous, threads := st.threads[t := Idle])
    case BeginStore(_, a, value) => st.(threads := st.threads[t := StoreLock(a, value)])
    case WriteWord(_) =>
      st.(mem := st.mem[pc.a := st.mem[pc.a][pc.done := pc.value[pc.done]]],
          threads := st.threads[t := pc.(done := pc.done + 1)])
    case DropGuard(_) =>
      st.(lock := (pc.previous + 2) % WORD, log := st.log + [(pc.a, pc.value)], threads := st.threads[t := Idle])
  }

  // ---- The invariant ----

  type Log = seq<(Addr, Value)>

  predicate SizesOk(init: map<Addr, Value>, log: Log, mem: map<Addr, Value>) {
    && mem.Keys == init.Keys
    && (forall a :: a in init ==> |mem[a]| == |init[a]| == |Current(init, log, a)|)
  }

  predicate NoWriter(threads: map<Tid, Pc>) {
    forall t :: t in threads ==> !threads[t].Writing?
  }

  /** What a read has seen so far is a prefix of the committed value, unless a writer got in between; a
      guard remembers the stamp of the log; a store has a value of the right size. */
  predicate ThreadOk(init: map<Addr, Value>, log: Log, lock: nat, quiet: bool, pc: Pc) {
    pc.Idle? ||
    (pc.a in init &&
     match pc
     case Reading(a, stamp, got, begin) =>
       && begin <= |log| && stamp == Stamp(begin) && |got| <= |init[a]|
       && (begin == |log| && quiet ==> got <= Current(init, log, a))
     case LockedRead(a, previous, got) =>
       lock == LOCKED && previous == Stamp(|log|) && got <= Current(init, log, a) && |got| <= |init[a]|
     case StoreLock(a, value) => |value| == |init[a]|
     case Writing(a, value, previous, done) =>
       lock == LOCKED && previous == Stamp(|log|) && |value| == |init[a]| && done <= |value|
     case _ => true)
  }

  predicate ThreadsOk(st: State) {
    forall t {:trigger ThreadOk(st.init, st.log, st.lock, NoWriter(st.threads), st.threads[t])} ::
      t in st.threads ==> ThreadOk(st.init, st.log, st.lock, NoWriter(st.threads), st.threads[t])
  }

  predicate OneGuard(threads: map<Tid, Pc>) {
    forall t, u :: t in threads && u in threads && Holds(threads[t]) && Holds(threads[u]) ==> t == u
  }

  predicate SomeGuard(threads: map<Tid, Pc>) {
    exists t :: t in threads && Holds(threads[t])
  }

  /** The word is 1 while there is a guard and the even stamp of the log otherwise. */
  predicate LockOk(st: State) {
    && (st.lock == LOCKED ==> SomeGuard(st.threads))
    && (st.lock != LOCKED ==> st.lock == Stamp(|st.log|))
  }

  /** Memory holds the committed values. */
  predicate Clean(init: map<Addr, Value>, log: Log, mem: map<Addr, Value>)
    requires SizesOk(init, log, mem)
  {
    forall a :: a in init ==> mem[a] == Current(init, log, a)
  }

  /** Memory holds the committed values except for the words a writer has already replaced. */
  predicate Dirty(init: map<Addr, Value>, log: Log, mem: map<Addr, Value>, a: Addr, value: Value, done: nat)
    requires SizesOk(init, log, mem)
  {
    && a in init && done <= |value| == |init[a]|
    && mem[a] == value[..done] + Current(init, log, a)[done..]
    && forall b :: b in init && b != a ==> mem[b] == Current(init, log, b)
  }

  predicate MemoryOk(st: State)
    requires SizesOk(st.init, st.log, st.mem)
  {
    && (NoWriter(st.threads) ==> Clean(st.init, st.log, st.mem))
    && (forall t {:trigger st.threads[t].Writing?} :: t in st.threads && st.threads[t].Writing? ==>
          Dirty(st.init, st.log, st.mem, st.threads[t].a, st.threads[t].value, st.threads[t].done))
  }

  predicate Inv(st: State) {
    && SizesOk(st.init, st.log, st.mem) && ThreadsOk(st) && OneGuard(st.threads) && LockOk(st) && MemoryOk(st)
  }

  // ---- Arithmetic of the stamps ----

  lemma StampsAreEven(n: nat)
    ensures Stamp(n) % 2 == 0 && Stamp(n) != LOCKED
    ensures (Stamp(n) + 2) % WORD == Stamp(n + 1)
  {
  }

  /** Stamps repeat only after 2^63 stores. */
  lemma StampsDiffer(b: nat, n: nat)
    requires b <= n < b + HALF && Stamp(b) == Stamp(n)
    ensures b == n
  {
    assert 2 * (n - b) < WORD;
    assert (2 * n - 2 * b) % WORD == 0;
  }

  /** After exactly 2^63 stores the stamp is the same again. */
  lemma StampsRepeat(b: nat)
    ensures Stamp(b + HALF) == Stamp(b)
  {
    assert 2 * (b + HALF) == 2 * b + WORD;
  }

  lemma CurrentAppend(init: map<Addr, Value>, log: seq<(Addr, Value)>, a: Addr, v: Value, b: Addr)
    requires b in init
    ensures Current(init, log + [(a, v)], b) == if a == b then v else Current(init, log, b)
  {
    assert (log + [(a, v)])[..|log|] == log;
  }

  // ---- Each step keeps the invariant ----

  lemma InitHolds(init: map<Addr, Value>, threads: set<Tid>)
    ensures Inv(Init(init, threads))
  {
  }

  lemma ThreadFact(st: State, t: Tid)
    requires ThreadsOk(st) && t in st.threads
    ensures ThreadOk(st.init, st.log, st.lock, NoWriter(st.threads), st.threads[t])
  {
    var fact := ThreadOk(st.init, st.log, st.lock, NoWriter(st.threads), st.threads[t]);
  }

  /** One thread moves, and holds or writes exactly if it did before. */
  lemma MoveKeeps(st: State, t: Tid, pc: Pc)
    requires Inv(st) && t in st.threads && Holds(st.threads[t]) == Holds(pc) && !pc.Writing? && !st.threads[t].Writing?
    requires ThreadOk(st.init, st.log, st.lock, NoWriter(st.threads), pc)
    ensures Inv(st.(threads := st.threads[t := pc]))
  {
    var st' := st.(threads := st.threads[t := pc]);
    assert NoWriter(st'.threads) == NoWriter(st.threads) by {
      if !NoWriter(st.threads) {
        var u :| u in st.threads && st.threads[u].Writing?;
        assert st'.threads[u].Writing?;
      }
    }
    forall u | u in st'.threads
      ensures ThreadOk(st.init, st.log, st.lock, NoWriter(st'.threads), st'.threads[u])
    {
      if u != t {
        ThreadFact(st, u);
      }
    }
    if st.lock == LOCKED {
      var u :| u in st.threads && Holds(st.threads[u]);
      assert Holds(st'.threads[u]);
    }
  }

  lemma ReadWordKeeps(st: State, t: Tid)
    requires Inv(st) && Enabled(st, ReadWord(t))
    ensures Inv(Apply(st, ReadWord(t)))
  {
    var pc := st.threads[t];
    ThreadFact(st, t);
    var current := Current(st.init, st.log, pc.a);
    var next := pc.got + [st.mem[pc.a][|pc.got|]];
    if pc.LockedRead? {
      assert NoWriter(st.threads);
    }
    if NoWriter(st.threads) && pc.got <= current {
      assert next == current[..|pc.got| + 1];
    }
    MoveKeeps(st, t, pc.(got := next));
  }

  lemma SwapKeeps(st: State, t: Tid)
    requires Inv(st) && Enabled(st, Swap(t))
    ensures Inv(Apply(st, Swap(t)))
  {
    var st' := Apply(st, Swap(t));
    if Grants(st.lock) {
      ThreadFact(st, t);
      forall u | u in st.threads
        ensures !Holds(st.threads[u])
      {
        ThreadFact(st, u);
      }
      assert NoWriter(st.threads);
      assert Holds(st'.threads[t]);
      if st'.threads[t].Writing? {
        var a := st'.threads[t].a;
        assert st'.threads[t].value[..0] + Current(st.init, st.log, a)[0..] == Current(st.init, st.log, a);
      }
      forall u | u in st'.threads
        ensures ThreadOk(st.init, st.log, LOCKED, NoWriter(st'.threads), st'.threads[u])
      {
        if u != t {
          ThreadFact(st, u);
        }
      }
    }
  }

  lemma AbortKeeps(st: State, t: Tid)
    requires Inv(st) && Enabled(st, Abort(t))
    ensures Inv(Apply(st, Abort(t)))
  {
    var st' := Apply(st, Abort(t));
    ThreadFact(st, t);
    assert NoWriter(st.threads) && NoWriter(st'.threads);
    StampsAreEven(|st.log|);
    forall u | u in st'.threads
      ensures ThreadOk(st.init, st.log, st'.lock, NoWriter(st'.threads), st'.threads[u])
    {
      if u != t {
        ThreadFact(st, u);
      }
    }
  }

  lemma NextWord(value: Value, current: Value, done: nat, next: nat)
    requires done < |value| == |current| && next == done + 1
    ensures (value[..done] + current[done..])[done := value[done]] == value[..next] + current[next..]
  {
  }

  lemma WordInMemory(st: State, t: Tid)
    requires Inv(st) && Enabled(st, WriteWord(t))
    ensures var st' := Apply(st, WriteWord(t));
            SizesOk(st'.init, st'.log, st'.mem) && MemoryOk(st')
  {
    var st' := Apply(st, WriteWord(t));
    var pc := st.threads[t];
    ThreadFact(st, t);
    assert pc.Writing? && Holds(st'.threads[t]);
    NextWord(pc.value, Current(st.init, st.log, pc.a), pc.done, pc.done + 1);
  }

  lemma WriteWordKeeps(st: State, t: Tid)
    requires Inv(st) && Enabled(st, WriteWord(t))
    ensures Inv(Apply(st, WriteWord(t)))
  {
    var st' := Apply(st, WriteWord(t));
    ThreadFact(st, t);
    WordInMemory(st, t);
    assert st.threads[t].Writing? && st'.threads[t].Writing? && Holds(st'.threads[t]);
    assert !NoWriter(st.threads) && !NoWriter(st'.threads);
    forall u | u in st'.threads
      ensures ThreadOk(st.init, st.log, st.lock, NoWriter(st'.threads), st'.threads[u])
    {
      if u != t {
        ThreadFact(st, u);
      }
    }
  }

  lemma DropGuardKeeps(st: State, t: Tid)
    requires Inv(st) && Enabled(st, DropGuard(t))
    ensures Inv(Apply(st, DropGuard(t)))
  {
    var st' := Apply(st, DropGuard(t));
    var pc := st.threads[t];
    ThreadFact(st, t);
    assert pc.Writing?;
    StampsAreEven(|st.log|);
    StampsAreEven(|st.log| + 1);
    forall a | a in st.init
      ensures st'.mem[a] == Current(st.init, st'.log, a)
    {
      CurrentAppend(st.init, st.log, pc.a, pc.value, a);
    }
    assert NoWriter(st'.threads);
    forall u | u in st'.threads
      ensures ThreadOk(st.init, st'.log, st'.lock, NoWriter(st'.threads), st'.threads[u])
    {
      if u != t {
        ThreadFact(st, u);
      }
    }
  }

  /** Every shared access by any thread keeps the invariant. */
  lemma StepKeeps(st: State, step: Step)
    requires Inv(st) && Enabled(st, step)
    ensures Inv(Apply(st, step))
  {
    ThreadFact(st, step.t);
    match step
    case BeginLoad(t, a) => MoveKeeps(st, t, LoadStart(a));
    case OptimisticRead(t) => MoveKeeps(st, t, Apply(st, step).threads[t]);
    case ReadWord(t) => ReadWordKeeps(st, t);
    case ValidateRead(t) => MoveKeeps(st, t, Apply(st, step).threads[t]);
    case Swap(t) => SwapKeeps(st, t);
    case Abort(t) => AbortKeeps(st, t);
    case BeginStore(t, a, value) => MoveKeeps(st, t, StoreLock(a, value));
    case WriteWord(t) => WriteWordKeeps(st, t);
    case DropGuard(t) => DropGuardKeeps(st, t);
  }

  // ---- Runs ----

  ghost predicate IsRun(states: seq<State>, steps: seq<Step>) {
    && |states| == |steps| + 1
    && (exists init: map<Addr, Value>, threads: set<Tid> :: states[0] == Init(init, threads))
    && (forall i :: 0 <= i < |steps| ==> Enabled(states[i], steps[i]) && states[i + 1] == Apply(states[i], steps[i]))
  }

  lemma {:induction false} RunKeeps(states: seq<State>, steps: seq<Step>, i: nat)
    requires IsRun(states, steps) && i < |states|
    ensures Inv(states[i])
  {
    if i == 0 {
      var init, threads: set<Tid> :| states[0] == Init(init, threads);
      InitHolds(init, threads);
    } else {
      RunKeeps(states, steps, i - 1);
      StepKeeps(states[i - 1], steps[i - 1]);
    }
  }

  /** In every state of every run there is at most one guard, and a free lock holds an even stamp. */
  lemma MutualExclusion(states: seq<State>, steps: seq<Step>, i: nat, t: Tid, u: Tid)
    requires IsRun(states, steps) && i < |states|
    requires t in states[i].threads && u in states[i].threads
    requires Holds(states[i].threads[t]) && Holds(states[i].threads[u])
    ensures t == u && states[i].lock == LOCKED
  {
    RunKeeps(states, steps, i);
    ThreadFact(states[i], t);
  }

  lemma StampsStayEven(states: seq<State>, steps: seq<Step>, i: nat)
    requires IsRun(states, steps) && i < |states|
    ensures states[i].lock == LOCKED || states[i].lock % 2 == 0
  {
    RunKeeps(states, steps, i);
    StampsAreEven(|states[i].log|);
  }

  /** A load that returns, returns one whole committed value: the one that is current at that very moment.
      For the optimistic path the stamp must not have wrapped around during the read, that is, fewer than
      2^63 stores were committed meanwhile. */
  lemma LoadsAreAtomic(states: seq<State>, steps: seq<Step>, i: nat)
    requires IsRun(states, steps) && i < |steps| && Returns(states[i], steps[i])
    requires steps[i].ValidateRead? ==> |states[i].log| < states[i].threads[steps[i].t].begin + HALF
    ensures var st := states[i];
            var pc := st.threads[steps[i].t];
            pc.a in st.init && pc.got == Current(st.init, st.log, pc.a)
  {
    RunKeeps(states, steps, i);
    var st := states[i];
    var t := steps[i].t;
    var pc := st.threads[t];
    ThreadFact(st, t);
    if steps[i].ValidateRead? {
      StampsAreEven(pc.begin);
      StampsDiffer(pc.begin, |st.log|);
      forall u | u in st.threads
        ensures !st.threads[u].Writing?
      {
        ThreadFact(st, u);
      }
    }
  }

  // ---- What loads and stores were asked for ----

  /** The cell and the value of the store that a thread began last. */
  function StoreOf(steps: seq<Step>, t: Tid): Option<(Addr, Value)> {
    if steps == [] then None
    else
      var last := steps[|steps| - 1];
      if last.BeginStore? && last.t == t then Some((last.a, last.value)) else StoreOf(steps[..|steps| - 1], t)
  }

  /** The cell of the load that a thread began last. */
  function LoadOf(steps: seq<Step>, t: Tid): Option<Addr> {
    if steps == [] then None
    else
      var last := steps[|steps| - 1];
      if last.BeginLoad? && last.t == t then Some(last.a) else LoadOf(steps[..|steps| - 1], t)
  }

  /** The stores of a history: each dropped guard commits what its thread was asked to store. */
  function Committed(steps: seq<Step>): Log {
    if steps == [] then []
    else
      var before, last := steps[..|steps| - 1], steps[|steps| - 1];
      if last.DropGuard? && StoreOf(before, last.t).Some? then Committed(before) + [StoreOf(before, last.t).value]
      else Committed(before)
  }

  /** A thread works on what it was asked for. */
  predicate Asked(steps: seq<Step>, t: Tid, pc: Pc) {
    match pc
    case Idle => true
    case StoreLock(a, value) => StoreOf(steps, t) == Some((a, value))
    case Writing(a, value, _, _) => StoreOf(steps, t) == Some((a, value))
    case _ => LoadOf(steps, t) == Some(pc.a)
  }

  ghost predicate Follows(steps: seq<Step>, st: State) {
    && st.log == Committed(steps)
    && (forall t :: t in st.threads ==> Asked(steps, t, st.threads[t]))
  }

  lemma OthersStayAsked(steps: seq<Step>, step: Step, t: Tid, pc: Pc)
    requires Asked(steps, t, pc) && step.t != t
    ensures Asked(steps + [step], t, pc)
  {
    assert (steps + [step])[..|steps|] == steps;
  }

  lemma StepAsked(steps: seq<Step>, st: State, step: Step)
    requires Enabled(st, step) && Asked(steps, step.t, st.threads[step.t])
    ensures Asked(steps + [step], step.t, Apply(st, step).threads[step.t])
  {
    assert (steps + [step])[..|steps|] == steps;
  }

  lemma StepCommits(steps: seq<Step>, st: State, step: Step)
    requires Enabled(st, step) && Asked(steps, step.t, st.threads[step.t]) && st.log == Committed(steps)
    ensures Apply(st, step).log == Committed(steps + [step])
  {
    assert (steps + [step])[..|steps|] == steps;
  }

  lemma StepFollows(steps: seq<Step>, st: State, step: Step)
    requires Follows(steps, st) && Enabled(st, step)
    ensures Follows(steps + [step], Apply(st, step)) && Apply(st, step).init == st.init
  {
    var st' := Apply(st, step);
    StepCommits(steps, st, step);
    forall t | t in st'.threads
      ensures Asked(steps + [step], t, st'.threads[t])
    {
      if t == step.t {
        StepAsked(steps, st, step);
      } else {
        OthersStayAsked(steps, step, t, st.threads[t]);
      }
    }
  }

  lemma {:induction false} RunFollows(states: seq<State>, steps: seq<Step>, i: nat)
    requires IsRun(states, steps) && i < |states|
    ensures Follows(steps[..i], states[i]) && states[i].init == states[0].init
  {
    if i == 0 {
      assert steps[..0] == [];
    } else {
      RunFollows(states, steps, i - 1);
      assert steps[..i] == steps[..i - 1] + [steps[i - 1]];
      StepFollows(steps[..i - 1], states[i - 1], steps[i - 1]);
    }
  }

  /** The current value is that of the last store to the cell, or the initial one if there was none. */
  lemma {:induction false} CurrentIsLast(init: map<Addr, Value>, log: Log, a: Addr, p: nat)
    requires a in init && p <= |log|
    requires forall q :: p <= q < |log| ==> log[q].0 != a
    ensures p > 0 && log[p - 1].0 == a ==> Current(init, log, a) == log[p - 1].1
    ensures p == 0 ==> Current(init, log, a) == init[a]
  {
    if p < |log| {
      CurrentIsLast(init, log[..|log| - 1], a, p);
    }
  }

  /** A load that returns, returns the value that the stores committed so far give the cell it was asked for: what
      threads were asked for decides what is read, as if every load and store were one step. */
  lemma LoadsSeeStores(states: seq<State>, steps: seq<Step>, i: nat)
    requires IsRun(states, steps) && i < |steps| && Returns(states[i], steps[i])
    requires steps[i].ValidateRead? ==> |states[i].log| < states[i].threads[steps[i].t].begin + HALF
    ensures var a := LoadOf(steps[..i], steps[i].t);
            && a.Some? && a.value in states[0].init
            && states[i].threads[steps[i].t].got == Current(states[0].init, Committed(steps[..i]), a.value)
  {
    LoadsAreAtomic(states, steps, i);
    RunFollows(states, steps, i);
    assert Asked(steps[..i], steps[i].t, states[i].threads[steps[i].t]);
  }

  predicate Stores(pc: Pc, a: Addr, v: Value) {
    (pc.StoreLock? || pc.Writing?) && pc.a == a && pc.value == v
  }

  predicate Loads(pc: Pc, a: Addr) {
    (pc.LoadStart? || pc.Reading? || pc.LoadLock? || pc.LockedRead?) && pc.a == a
  }

  lemma StepStores(st: State, step: Step, t: Tid, a: Addr, v: Value)
    requires Enabled(st, step) && t in st.threads && Stores(st.threads[t], a, v) && step != DropGuard(t)
    ensures t in Apply(st, step).threads && Stores(Apply(st, step).threads[t], a, v)
  {
  }

  lemma StepLoads(st: State, step: Step, t: Tid, a: Addr)
    requires Enabled(st, step) && t in st.threads && Loads(st.threads[t], a) && !(step.t == t && Returns(st, step))
    ensures t in Apply(st, step).threads && Loads(Apply(st, step).threads[t], a)
  {
  }

  lemma StepAt(states: seq<State>, steps: seq<Step>, i: nat)
    requires IsRun(states, steps) && i < |steps|
    ensures Enabled(states[i], steps[i]) && states[i + 1] == Apply(states[i], steps[i])
  {
  }

  /** From the beginning of a store to its dropped guard the thread works on it. */
  lemma {:induction false} StoreGoesOn(states: seq<State>, steps: seq<Step>, i: nat, j: nat, t: Tid, a: Addr, v: Value)
    requires IsRun(states, steps) && i < j < |states| && steps[i] == BeginStore(t, a, v)
    requires forall n :: i < n < j ==> steps[n] != DropGuard(t)
    ensures t in states[j].threads && Stores(states[j].threads[t], a, v)
  {
    StepAt(states, steps, j - 1);
    if i + 1 < j {
      StoreGoesOn(states, steps, i, j - 1, t, a, v);
      StepStores(states[j - 1], steps[j - 1], t, a, v);
    }
  }

  lemma {:induction false} LoadGoesOn(states: seq<State>, steps: seq<Step>, i: nat, j: nat, t: Tid, a: Addr)
    requires IsRun(states, steps) && i < j < |states| && steps[i] == BeginLoad(t, a)
    requires forall n :: i < n < j ==> !(steps[n].t == t && Returns(states[n], steps[n]))
    ensures t in states[j].threads && Loads(states[j].threads[t], a)
  {
    StepAt(states, steps, j - 1);
    if i + 1 < j {
      LoadGoesOn(states, steps, i, j - 1, t, a);
      StepLoads(states[j - 1], steps[j - 1], t, a);
    }
  }

  /** A store commits the value it was given to the cell it was given, in the log and in memory. */
  lemma StoreCommits(states: seq<State>, steps: seq<Step>, i: nat, j: nat, t: Tid, a: Addr, v: Value)
    requires IsRun(states, steps) && i < j < |steps| && steps[i] == BeginStore(t, a, v) && steps[j] == DropGuard(t)
    requires forall n :: i < n < j ==> steps[n] != DropGuard(t)
    ensures states[j + 1].log == states[j].log + [(a, v)]
    ensures a in states[j + 1].mem && states[j + 1].mem[a] == v
  {
    StoreGoesOn(states, steps, i, j, t, a, v);
    RunKeeps(states, steps, j);
    StepAt(states, steps, j);
    var st := states[j];
    ThreadFact(st, t);
    assert st.threads[t].Writing?;
    assert v[..|v|] + Current(st.init, st.log, a)[|v|..] == v;
  }

  /** A load returns the committed value of the cell it was given. */
  lemma LoadReturns(states: seq<State>, steps: seq<Step>, i: nat, j: nat, t: Tid, a: Addr)
    requires IsRun(states, steps) && i < j < |steps| && steps[i] == BeginLoad(t, a)
    requires steps[j].t == t && Returns(states[j], steps[j])
    requires forall n :: i < n < j ==> !(steps[n].t == t && Returns(states[n], steps[n]))
    requires steps[j].ValidateRead? ==> |states[j].log| < states[j].threads[t].begin + HALF
    ensures a in states[j].init && states[j].threads[t].got == Current(states[j].init, states[j].log, a)
  {
    LoadGoesOn(states, steps, i, j, t, a);
    LoadsAreAtomic(states, steps, j);
  }

  // ---- Progress ----

  /** What a busy thread does next. */
  function NextStep(st: State, t: Tid): Step
    requires t in st.threads && !st.threads[t].Idle? && st.threads[t].a in st.mem
  {
    var pc := st.threads[t];
    match pc
    case LoadStart(_) => OptimisticRead(t)
    case Reading(a, _, got, _) => if |got| < |st.mem[a]| then ReadWord(t) else ValidateRead(t)
    case LockedRead(a, _, got) => if |got| < |st.mem[a]| then ReadWord(t) else Abort(t)
    case Writing(_, value, _, done) => if done < |value| then WriteWord(t) else DropGuard(t)
    case _ => Swap(t)
  }

  /** How many steps a thread needs at most when no other one holds the lock: n words are read optimistically, and
      once more under the lock if that was in vain. */
  function Rank(init: map<Addr, Value>, pc: Pc): nat
    requires pc.Idle? || pc.a in init
  {
    match pc
    case Idle => 0
    case LoadStart(a) => 2 * |init[a]| + 4
    case Reading(a, _, got, _) => 2 * |init[a]| + 3 - Min(|got|, |init[a]|)
    case LoadLock(a) => |init[a]| + 2
    case LockedRead(a, _, got) => |init[a]| + 1 - Min(|got|, |init[a]|)
    case StoreLock(a, value) => |init[a]| + 2
    case Writing(a, value, _, done) => |init[a]| + 1 - Min(done, |init[a]|)
  }

  /** The lock is free or the thread's own. */
  predicate Undisturbed(st: State, t: Tid) {
    t in st.threads && (st.lock != LOCKED || Holds(st.threads[t]))
  }

  lemma SoloStep(st: State, t: Tid)
    requires Inv(st) && Undisturbed(st, t) && !st.threads[t].Idle?
    ensures st.threads[t].a in st.init && st.threads[t].a in st.mem
    ensures var step := NextStep(st, t);
            && step.t == t && Enabled(st, step)
            && var st' := Apply(st, step);
               && Inv(st') && Undisturbed(st', t) && st'.init == st.init
               && (st'.threads[t].Idle? || st'.threads[t].a in st.init)
               && Rank(st.init, st'.threads[t]) < Rank(st.init, st.threads[t])
  {
    ThreadFact(st, t);
    var step := NextStep(st, t);
    StepKeeps(st, step);
    ThreadFact(Apply(st, step), t);
    StampsAreEven(|st.log|);
    StampsAreEven(|st.log| + 1);
  }

  /** That the steps, all of one thread, lead through the states. */
  ghost predicate RunsAlone(states: seq<State>, steps: seq<Step>, t: Tid) {
    && |states| == |steps| + 1
    && forall i :: 0 <= i < |steps| ==>
         steps[i].t == t && Enabled(states[i], steps[i]) && states[i + 1] == Apply(states[i], steps[i])
  }

  lemma OneStepBefore(st: State, step: Step, states: seq<State>, steps: seq<Step>, t: Tid)
    requires RunsAlone(states, steps, t) && step.t == t && Enabled(st, step) && states[0] == Apply(st, step)
    ensures RunsAlone([st] + states, [step] + steps, t)
  {
  }

  /** What the log is once a thread is done with what it is doing. */
  function Finally(log: Log, pc: Pc): Log {
    if pc.StoreLock? || pc.Writing? then log + [(pc.a, pc.value)] else log
  }

  lemma StepTowards(st: State, t: Tid)
    requires t in st.threads && !st.threads[t].Idle? && st.threads[t].a in st.mem && Enabled(st, NextStep(st, t))
    ensures var st' := Apply(st, NextStep(st, t));
            t in st'.threads && Finally(st'.log, st'.threads[t]) == Finally(st.log, st.threads[t])
  {
  }

  /** A thread that runs alone on a lock that no other one holds finishes what it began, within its rank; a store has
      then committed what it was given. */
  lemma {:induction false} SoloFinishes(st: State, t: Tid) returns (states: seq<State>, steps: seq<Step>)
    requires Inv(st) && Undisturbed(st, t) && (st.threads[t].Idle? || st.threads[t].a in st.init)
    ensures RunsAlone(states, steps, t) && states[0] == st && |steps| <= Rank(st.init, st.threads[t])
    ensures t in states[|steps|].threads && states[|steps|].threads[t].Idle?
    ensures states[|steps|].log == Finally(st.log, st.threads[t])
    decreases Rank(st.init, st.threads[t])
  {
    if st.threads[t].Idle? {
      return [st], [];
    }
    SoloStep(st, t);
    StepTowards(st, t);
    var step := NextStep(st, t);
    var st' := Apply(st, step);
    var rest, later := SoloFinishes(st', t);
    OneStepBefore(st, step, rest, later, t);
    states, steps := [st] + rest, [step] + later;
  }

  /** No state is a deadlock: while some thread is busy, one of the busy threads can finish on its own. */
  lemma SomebodyFinishes(st: State, t: Tid) returns (u: Tid)
    requires Inv(st) && t in st.threads && !st.threads[t].Idle?
    ensures Undisturbed(st, u) && !st.threads[u].Idle?
  {
    u := t;
    if st.lock == LOCKED {
      u :| u in st.threads && Holds(st.threads[u]);
    }
  }

  // ---- The test as written ----

  /** `write` as written grants the guard when the previous word was 1. */
  predicate GrantsAsWritten(previous: nat) {
    previous == LOCKED
  }

  function SwapAsWritten(st: State, t: Tid): State
    requires Enabled(st, Swap(t))
  {
    var pc := st.threads[t];
    if GrantsAsWritten(st.lock) then
      var next := if pc.LoadLock? then LockedRead(pc.a, st.lock, []) else Writing(pc.a, pc.value, st.lock, 0);
      st.(lock := LOCKED, threads := st.threads[t := next])
    else st.(lock := LOCKED)
  }

  /** From every sound state the written swap leads to an unsound one: on a taken lock there are two guards, on a
      free one the lock is taken and nobody has the guard to release it. */
  lemma WrittenSwapBreaks(st: State, t: Tid)
    requires Inv(st) && Enabled(st, Swap(t))
    ensures var st' := SwapAsWritten(st, t);
            && st'.lock == LOCKED && !Inv(st')
            && (st.lock == LOCKED ==>
                  Holds(st'.threads[t]) && exists u :: u != t && u in st'.threads && Holds(st'.threads[u]))
            && (st.lock != LOCKED ==> forall u :: u in st'.threads ==> !Holds(st'.threads[u]))
  {
    var st' := SwapAsWritten(st, t);
    if st.lock == LOCKED {
      var u :| u in st.threads && Holds(st.threads[u]);
      assert u != t && Holds(st'.threads[u]) && Holds(st'.threads[t]);
    } else {
      forall u | u in st.threads
        ensures !Holds(st.threads[u])
      {
        ThreadFact(st, u);
      }
    }
  }
}
