/** `Join::wait` against `Join::trigger`, with the one-token parker as the blocker, and the result that
    `JoinHandle::join` takes afterwards.

    One waiter and the coroutine it waits for, one shared access at a time in any order (sequentially
    consistent). Holding the parker's mutex over a check and the decision to sleep makes that one step;
    a condition variable may also wake up spuriously. */
module Join {
  import opened Wrappers

  /** How the coroutine's body ends: with a value, or by a panic that may carry data. */
  datatype Ending<V, P> = Completed(value: V) | Panicked(data: Option<P>)

  /** What `join` returns. */
  datatype Outcome<V, P> = Ok(value: V) | Err(data: P) | Cancelled

  datatype Waiter =
    | CheckState     // first load of `state`
    | Register       // store the blocker in `to_wake`
    | Recheck        // second load of `state`
    | Unregister     // take the blocker back
    | Park           // about to look at the token
    | Sleeping       // waiting on the condition variable
    | TakeResult     // `wait` has returned
    | Joined

  datatype Runner =
    | Body           // running, about to store the packet or the panic data
    | ClearState     // `trigger`: about to store false
    | TakeBlocker    // about to take `to_wake`
    | Unpark         // about to set the token and notify
    | Finished

  datatype State<V, P> = State(
    ending: Ending<V, P>, state: bool, toWake: bool, token: bool, packet: Option<V>, panic: Option<P>,
    waiter: Waiter, runner: Runner, result: Option<Outcome<V, P>>)

  datatype Step = WaiterStep | RunnerStep | Spurious

  /** `token` says whether the blocker's token was already set when `wait` began. */
  function Init<V, P>(ending: Ending<V, P>, token: bool): State<V, P> {
    State(ending, true, false, token, None, None, CheckState, Body, None)
  }

  predicate Enabled<V, P>(st: State<V, P>, step: Step) {
    match step
    case WaiterStep => !st.waiter.Sleeping? && !st.waiter.Joined?
    case RunnerStep => !st.runner.Finished?
    case Spurious => st.waiter.Sleeping?
  }

  function WaiterMoves<V, P>(st: State<V, P>): State<V, P> {
    match st.waiter
    case CheckState => st.(waiter := if st.state then Register else TakeResult)
    case Register => st.(toWake := true, waiter := Recheck)
    case Recheck => st.(waiter := if st.state then Park else Unregister)
    case Unregister => st.(toWake := false, waiter := TakeResult)
    case Park => if st.token then st.(token := false, waiter := TakeResult) else st.(waiter := Sleeping)
    case TakeResult =>
      if st.packet.Some? then st.(packet := None, result := Some(Ok(st.packet.value)), waiter := Joined)
      else if st.panic.Some? then st.(panic := None, result := Some(Err(st.panic.value)), waiter := Joined)
      else st.(result := Some(Cancelled), waiter := Joined)
    case _ => st
  }

  function RunnerMoves<V, P>(st: State<V, P>): State<V, P> {
    match st.runner
    case Body =>
      (match st.ending
       case Completed(v) => st.(packet := Some(v), runner := ClearState)
       case Panicked(data) => st.(panic := data, runner := ClearState))
    case ClearState => st.(state := false, runner := TakeBlocker)
    case TakeBlocker => if st.toWake then st.(toWake := false, runner := Unpark) else st.(runner := Finished)
    case Unpark =>
      if st.token then st.(runner := Finished)
      else st.(token := true, runner := Finished, waiter := if st.waiter.Sleeping? then Park else st.waiter)
    case Finished => st
  }

  function Apply<V, P>(st: State<V, P>, step: Step): State<V, P> {
    match step
    case WaiterStep => WaiterMoves(st)
    case RunnerStep => RunnerMoves(st)
    case Spurious => st.(waiter := Park)
  }

  predicate Waited(w: Waiter) {
    w.TakeResult? || w.Joined?
  }

  predicate BeforeTake(r: Runner) {
    r.Body? || r.ClearState? || r.TakeBlocker?
  }

  /** What `join` owes its caller. */
  function Owed<V, P>(ending: Ending<V, P>): Outcome<V, P> {
    match ending
    case Completed(v) => Ok(v)
    case Panicked(Some(p)) => Err(p)
    case Panicked(None) => Cancelled
  }

  /** The invariant of a wait that began without a stale token. */
  ghost predicate Inv<V, P>(st: State<V, P>) {
    && (st.state <==> st.runner.Body? || st.runner.ClearState?)
    && (st.token ==> st.runner.Finished?)
    // a parked waiter has its token, or somebody is on the way to give it
    && (st.waiter.Park? || st.waiter.Sleeping? ==>
          (st.toWake && BeforeTake(st.runner)) || st.runner.Unpark? || st.token)
    && (st.waiter.Sleeping? ==> !st.token)
    && (st.waiter.Recheck? ==> st.toWake || st.runner.Unpark? || st.runner.Finished?)
    && (st.waiter.CheckState? || st.waiter.Register? ==> !st.toWake && !st.runner.Unpark? && !st.token)
    && (st.waiter.Unregister? || Waited(st.waiter) ==> !st.state)
    // the body's result is in place from the moment it ends until `join` takes it
    && (if st.runner.Body? then st.packet == None && st.panic == None
        else !st.waiter.Joined? ==>
          && st.packet == (if st.ending.Completed? then Some(st.ending.value) else None)
          && st.panic == (if st.ending.Panicked? then st.ending.data else None))
    && (st.result == if st.waiter.Joined? then Some(Owed(st.ending)) else None)
  }

  lemma InitHolds<V, P>(ending: Ending<V, P>)
    ensures Inv(Init(ending, false))
  {
  }

  lemma StepKeeps<V, P>(st: State<V, P>, step: Step)
    requires Inv(st) && Enabled(st, step)
    ensures Inv(Apply(st, step))
  {
  }

  // ---- Progress ----

  /** A waiter that sleeps will be woken, so the system never gets stuck before both are done. */
  lemma NeverStuck<V, P>(st: State<V, P>)
    requires Inv(st) && !(st.waiter.Joined? && st.runner.Finished?)
    ensures Enabled(st, WaiterStep) || Enabled(st, RunnerStep)
  {
  }

  function WaiterRank(w: Waiter): nat {
    match w
    case CheckState => 7
    case Register => 6
    case Recheck => 5
    case Park => 4
    case Sleeping => 3
    case Unregister => 3
    case TakeResult => 1
    case Joined => 0
  }

  function RunnerRank(r: Runner): nat {
    match r
    case Body => 4
    case ClearState => 3
    case TakeBlocker => 2
    case Unpark => 1
    case Finished => 0
  }

  function Rank<V, P>(st: State<V, P>): nat {
    3 * RunnerRank(st.runner) + WaiterRank(st.waiter)
  }

  /** Every step but a spurious wake-up brings the end closer. */
  lemma StepDescends<V, P>(st: State<V, P>, step: Step)
    requires Enabled(st, step)
    ensures Rank(Apply(st, step)) <= if step.Spurious? then Rank(st) + 1 else Rank(st) - 1
  {
  }

  // ---- Runs ----

  ghost predicate IsRun<V(!new), P(!new)>(states: seq<State<V, P>>, steps: seq<Step>, token: bool) {
    && |states| == |steps| + 1
    && (exists ending: Ending<V, P> :: states[0] == Init(ending, token))
    && (forall i :: 0 <= i < |steps| ==> Enabled(states[i], steps[i]) && states[i + 1] == Apply(states[i], steps[i]))
  }

  function SpuriousCount(steps: seq<Step>): nat {
    if steps == [] then 0
    else SpuriousCount(steps[..|steps| - 1]) + if steps[|steps| - 1].Spurious? then 1 else 0
  }

  lemma {:induction false} RunKeeps<V(!new), P(!new)>(states: seq<State<V, P>>, steps: seq<Step>, i: nat)
    requires IsRun(states, steps, false) && i < |states|
    ensures Inv(states[i])
  {
    if i == 0 {
      var ending: Ending<V, P> :| states[0] == Init(ending, false);
      InitHolds(ending);
    } else {
      RunKeeps(states, steps, i - 1);
      StepKeeps(states[i - 1], steps[i - 1]);
    }
  }

  lemma {:induction false} RunDescends<V(!new), P(!new)>(
    states: seq<State<V, P>>, steps: seq<Step>, token: bool, i: nat)
    requires IsRun(states, steps, token) && i < |states|
    ensures i + Rank(states[i]) <= 19 + 2 * SpuriousCount(steps[..i])
  {
    if i > 0 {
      RunDescends(states, steps, token, i - 1);
      StepDescends(states[i - 1], steps[i - 1]);
      assert steps[..i][..i - 1] == steps[..i - 1];
    }
  }

  /** How the body ends does not change on the way. */
  lemma {:induction false} EndingStays<V(!new), P(!new)>(
    states: seq<State<V, P>>, steps: seq<Step>, token: bool, i: nat)
    requires IsRun(states, steps, token) && i < |states|
    ensures states[i].ending == states[0].ending
  {
    if i > 0 {
      EndingStays(states, steps, token, i - 1);
    }
  }

  /** Every run has at most 19 steps and two more per spurious wake-up, and a run that cannot go on, except
      by spurious wake-ups, has both sides done with the result that `join` owes. */
  lemma EveryRunEnds<V(!new), P(!new)>(states: seq<State<V, P>>, steps: seq<Step>)
    requires IsRun(states, steps, false)
    ensures |steps| <= 19 + 2 * SpuriousCount(steps)
    ensures var last := states[|steps|];
            !Enabled(last, WaiterStep) && !Enabled(last, RunnerStep) ==>
              last.waiter.Joined? && last.runner.Finished? && last.result == Some(Owed(states[0].ending))
  {
    EndingStays(states, steps, false, |steps|);
    RunDescends(states, steps, false, |steps|);
    assert steps[..|steps|] == steps;
    RunKeeps(states, steps, |steps|);
    if !(states[|steps|].waiter.Joined? && states[|steps|].runner.Finished?) {
      NeverStuck(states[|steps|]);
    }
  }

  /** `wait` returns only once the coroutine is done. */
  lemma WaitMeansDone<V(!new), P(!new)>(states: seq<State<V, P>>, steps: seq<Step>, i: nat)
    requires IsRun(states, steps, false) && i < |states| && Waited(states[i].waiter)
    ensures !states[i].state
    ensures states[i].waiter.Joined? ==>
              states[i].result == Some(match states[0].ending
                                       case Completed(v) => Ok(v)
                                       case Panicked(Some(p)) => Err(p)
                                       case Panicked(None) => Cancelled)
  {
    EndingStays(states, steps, false, i);
    RunKeeps(states, steps, i);
  }

  // ---- A token left over from before ----

  /** With a token already set, `wait` returns while the coroutine is still running, and `join` reports a
      cancellation whatever the body will do. */
  lemma StaleTokenReturnsEarly<V(!new), P(!new)>(ending: Ending<V, P>)
    returns (states: seq<State<V, P>>, steps: seq<Step>)
    ensures IsRun(states, steps, true) && |steps| == 5
    ensures Waited(states[4].waiter) && states[4].state
    ensures states[5].result == Some(Cancelled) && states[5].runner.Body?
  {
    var s0 := Init(ending, true);
    var s1 := s0.(waiter := Register);
    var s2 := s1.(toWake := true, waiter := Recheck);
    var s3 := s2.(waiter := Park);
    var s4 := s3.(token := false, waiter := TakeResult);
    var s5 := s4.(result := Some(Cancelled), waiter := Joined);
    states := [s0, s1, s2, s3, s4, s5];
    steps := [WaiterStep, WaiterStep, WaiterStep, WaiterStep, WaiterStep];
    assert states[0] == Init(ending, true);
  }

  /** So the promise of `wait` holds on all runs exactly when the token was clear at the start. */
  lemma WaitMeansDoneIffTokenClear<V(!new), P(!new)>(token: bool)
    ensures (forall states: seq<State<V, P>>, steps: seq<Step>, i: nat ::
               IsRun(states, steps, token) && i < |states| && Waited(states[i].waiter) ==> !states[i].state)
       <==> !token
  {
    if token {
      var states: seq<State<V, P>>, steps := StaleTokenReturnsEarly(Panicked(None));
      assert IsRun(states, steps, true) && 4 < |states| && Waited(states[4].waiter) && states[4].state;
    } else {
      forall states: seq<State<V, P>>, steps: seq<Step>, i: nat
        | IsRun(states, steps, token) && i < |states| && Waited(states[i].waiter)
        ensures !states[i].state
      {
        WaitMeansDone(states, steps, i);
      }
    }
  }

  /** And a wait can leave a token behind for the next one: the trigger takes the blocker between the
      registration and the second look at the state. */
  lemma MayLeaveToken<V(!new), P(!new)>(ending: Ending<V, P>) returns (states: seq<State<V, P>>, steps: seq<Step>)
    ensures IsRun(states, steps, false) && |steps| == 9
    ensures states[9].waiter.Joined? && states[9].runner.Finished? && states[9].token
  {
    var s0 := Init(ending, false);
    var s1 := WaiterMoves(s0);
    var s2 := WaiterMoves(s1);
    var s3 := RunnerMoves(s2);
    var s4 := RunnerMoves(s3);
    var s5 := RunnerMoves(s4);
    var s6 := WaiterMoves(s5);
    var s7 := WaiterMoves(s6);
    var s8 := WaiterMoves(s7);
    var s9 := RunnerMoves(s8);
    states := [s0, s1, s2, s3, s4, s5, s6, s7, s8, s9];
    steps := [WaiterStep, WaiterStep, RunnerStep, RunnerStep, RunnerStep,
              WaiterStep, WaiterStep, WaiterStep, RunnerStep];
    assert states[0] == Init(ending, false);
    assert s5.runner.Unpark? && s6.waiter.Unregister? && s7.waiter.TakeResult?;
  }
}
