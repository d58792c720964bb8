/**
 * The lifecycle of a capsule process (runtime/internal/capsule/process.go:150-337) as a transition system:
 * any number of Start, Stop and Wait callers, the subprocess itself, and the watcher, which marks the exit
 * with two compare-and-swaps in a fixed order.
 */
module Process {
  import opened Wrappers

  datatype Lifecycle = Created | Starting | Running | Stopping | Exited | Failed

  /** The start-once guard: who is inside it and how far, or how it ended. */
  datatype StartGuard = Untaken | Inside(starter: nat, progress: StartProgress) | Completed(starter: nat, ok: bool)

  datatype StartProgress = Entered | Spawning | Spawned

  datatype StartCall = StartInside | StartBlocked | StartReturned(error: bool)

  datatype Watcher = NotWatching | WaitingForExit | SawExit | SwappedOnce | SwappedTwice | Closed

  /** Which state the watcher's first compare-and-swap expects; the source's is Running. */
  datatype SwapOrder = RunningFirst | StoppingFirst

  datatype StopCall = StopRead | StopSignals | StopAwaits | StopKilled | StopReturned

  datatype WaitCall = WaitBlocked | WaitReturned(refused: bool)

  datatype State = State(order: SwapOrder, state: Lifecycle, guard: StartGuard, alive: bool, watcher: Watcher, exitCloses: nat,
                         starts: map<nat, StartCall>, stops: map<nat, StopCall>, waits: map<nat, WaitCall>)

  function Fresh(order: SwapOrder): State {
    State(order, Created, Untaken, false, NotWatching, 0, map[], map[], map[])
  }

  const INITIAL: State := Fresh(RunningFirst)

  datatype Step =
    | Start(a: nat)
    | StartSwap
    | StartFails
    | Spawn
    | StoreRunning
    | StartUnblocks(a: nat)
    | Die
    | SeeExit
    | SwapFirst
    | SwapSecond
    | CloseExited
    | Stop(x: nat)
    | StopSwap(x: nat)
    | StopSignal(x: nat)
    | StopSeesExit(x: nat)
    | StopDeadline(x: nat)
    | StopGivesUp(x: nat)
    | Wait(w: nat)
    | WaitSeesExit(w: nat)

  function CompareAndSwap(state: Lifecycle, from: Lifecycle, to: Lifecycle): Lifecycle {
    if state == from then to else state
  }

  predicate StopIn(s: State, x: nat, phase: StopCall) {
    x in s.stops && s.stops[x] == phase
  }

  predicate At(s: State, progress: StartProgress) {
    s.guard.Inside? && s.guard.progress == progress
  }

  predicate Enabled(s: State, step: Step) {
    match step
    case Start(a) => a !in s.starts
    case StartSwap => At(s, Entered)
    case StartFails => At(s, Spawning)
    case Spawn => At(s, Spawning)
    case StoreRunning => At(s, Spawned)
    case StartUnblocks(a) => a in s.starts && s.starts[a].StartBlocked? && s.guard.Completed?
    case Die => s.alive
    case SeeExit => s.watcher.WaitingForExit? && !s.alive
    case SwapFirst => s.watcher.SawExit?
    case SwapSecond => s.watcher.SwappedOnce?
    case CloseExited => s.watcher.SwappedTwice?
    case Stop(x) => x !in s.stops
    case StopSwap(x) => StopIn(s, x, StopRead)
    case StopSignal(x) => StopIn(s, x, StopSignals)
    case StopSeesExit(x) => (StopIn(s, x, StopAwaits) || StopIn(s, x, StopKilled)) && s.exitCloses > 0
    case StopDeadline(x) => StopIn(s, x, StopAwaits)
    case StopGivesUp(x) => StopIn(s, x, StopKilled)
    case Wait(w) => w !in s.waits
    case WaitSeesExit(w) => w in s.waits && s.waits[w].WaitBlocked? && s.exitCloses > 0
  }

  function StartEnds(s: State, error: bool): map<nat, StartCall>
    requires s.guard.Inside?
  {
    s.starts[s.guard.starter := StartReturned(error)]
  }

  function Apply(s: State, step: Step): State
    requires Enabled(s, step)
  {
    match step
    case Start(a) =>
      if s.guard.Untaken? then s.(guard := Inside(a, Entered), starts := s.starts[a := StartInside])
      else s.(starts := s.starts[a := StartBlocked])
    case StartSwap =>
      if s.state == Created then s.(state := Starting, guard := Inside(s.guard.starter, Spawning))
      else s.(guard := Completed(s.guard.starter, false), starts := StartEnds(s, true))
    case StartFails => s.(state := Failed, guard := Completed(s.guard.starter, false), starts := StartEnds(s, true))
    case Spawn => s.(alive := true, guard := Inside(s.guard.starter, Spawned))
    case StoreRunning =>
      s.(state := Running, guard := Completed(s.guard.starter, true), watcher := WaitingForExit, starts := StartEnds(s, false))
    case StartUnblocks(a) => s.(starts := s.starts[a := StartReturned(false)])
    case Die => s.(alive := false)
    case SeeExit => s.(watcher := SawExit)
    case SwapFirst =>
      s.(state := CompareAndSwap(s.state, if s.order.RunningFirst? then Running else Stopping, Exited), watcher := SwappedOnce)
    case SwapSecond =>
      s.(state := CompareAndSwap(s.state, if s.order.RunningFirst? then Stopping else Running, Exited), watcher := SwappedTwice)
    case CloseExited => s.(exitCloses := s.exitCloses + 1, watcher := Closed)
    case Stop(x) =>
      s.(stops := s.stops[x := if s.state in {Exited, Failed, Created} then StopReturned else StopRead])
    case StopSwap(x) => s.(state := CompareAndSwap(s.state, Running, Stopping), stops := s.stops[x := StopSignals])
    case StopSignal(x) => s.(stops := s.stops[x := StopAwaits])
    case StopSeesExit(x) => s.(stops := s.stops[x := StopReturned])
    case StopDeadline(x) => s.(alive := s.alive && !s.guard.Completed?, stops := s.stops[x := StopKilled])
    case StopGivesUp(x) => s.(stops := s.stops[x := StopReturned])
    case Wait(w) =>
      s.(waits := s.waits[w := if s.state == Created || s.state == Failed then WaitReturned(true) else WaitBlocked])
    case WaitSeesExit(w) => s.(waits := s.waits[w := WaitReturned(false)])
  }

  predicate Runs(s: State, steps: seq<Step>, t: State)
    decreases |steps|
  {
    if steps == [] then s == t
    else Enabled(s, steps[0]) && Runs(Apply(s, steps[0]), steps[1..], t)
  }

  // ---------------------------------------------------------------- the invariant

  /** How the start guard, the watcher and the state fit together. */
  predicate PhasesHold(s: State) {
    && s.order.RunningFirst?
    && (match s.guard
        case Untaken => s.state == Created && s.watcher.NotWatching? && !s.alive
        case Inside(_, Entered) => s.state == Created && s.watcher.NotWatching? && !s.alive
        case Inside(_, Spawning) => s.state == Starting && s.watcher.NotWatching? && !s.alive
        case Inside(_, Spawned) => s.state == Starting && s.watcher.NotWatching?
        case Completed(_, ok) => if ok then !s.watcher.NotWatching? else s.state == Failed && s.watcher.NotWatching? && !s.alive)
    && (match s.watcher
        case NotWatching => s.state !in {Running, Stopping, Exited}
        case WaitingForExit => s.state in {Running, Stopping}
        case SawExit => s.state in {Running, Stopping} && !s.alive
        case SwappedOnce => s.state in {Stopping, Exited} && !s.alive
        case SwappedTwice => s.state == Exited && !s.alive
        case Closed => s.state == Exited && !s.alive)
    && s.exitCloses == (if s.watcher.Closed? then 1 else 0)
  }

  /** Only the caller inside the guard is starting, and only it can have been given an error. */
  predicate StartsHold(guard: StartGuard, starts: map<nat, StartCall>) {
    && (!guard.Untaken? ==> guard.starter in starts)
    && forall a | a in starts ::
         && (starts[a].StartInside? <==> guard.Inside? && guard.starter == a)
         && (starts[a] == StartReturned(true) <==> guard.Completed? && guard.starter == a && !guard.ok)
  }

  /** Whoever is blocked in Wait came after the start had begun. */
  predicate WaitsHold(s: State) {
    forall w | w in s.waits && s.waits[w].WaitBlocked? :: s.state != Created
  }

  predicate Inv(s: State) {
    PhasesHold(s) && StartsHold(s.guard, s.starts) && WaitsHold(s)
  }

  function Rank(state: Lifecycle): nat {
    match state
    case Created => 0
    case Starting => 1
    case Running => 2
    case Stopping => 3
    case Exited => 4
    case Failed => 4
  }

  /** The state only moves forward, and the final ones stay. */
  predicate MovesOn(a: Lifecycle, b: Lifecycle) {
    Rank(a) <= Rank(b) && (a == Exited || a == Failed ==> b == a)
  }

  lemma StepKeeps(s: State, step: Step)
    requires Inv(s) && Enabled(s, step)
    ensures Inv(Apply(s, step)) && MovesOn(s.state, Apply(s, step).state)
  {
    PhaseStep(s, step);
    StartStep(s, step);
    WaitStep(s, step);
    hide Apply, Enabled, PhasesHold, StartsHold, WaitsHold;
  }

  lemma PhaseStep(s: State, step: Step)
    requires PhasesHold(s) && Enabled(s, step)
    ensures PhasesHold(Apply(s, step)) && MovesOn(s.state, Apply(s, step).state)
  {
  }

  lemma StartStep(s: State, step: Step)
    requires PhasesHold(s) && StartsHold(s.guard, s.starts) && Enabled(s, step)
    ensures StartsHold(Apply(s, step).guard, Apply(s, step).starts)
  {
    if !step.Start? && !step.StartSwap? && !step.StartFails? && !step.Spawn? && !step.StoreRunning? && !step.StartUnblocks? {
      GuardLeftAlone(s, step);
      hide Apply, Enabled, StartsHold;
    }
  }

  lemma GuardLeftAlone(s: State, step: Step)
    requires Enabled(s, step)
    requires !step.Start? && !step.StartSwap? && !step.StartFails? && !step.Spawn? && !step.StoreRunning? && !step.StartUnblocks?
    ensures Apply(s, step).guard == s.guard && Apply(s, step).starts == s.starts
  {
  }

  lemma WaitStep(s: State, step: Step)
    requires PhasesHold(s) && WaitsHold(s) && Enabled(s, step)
    ensures WaitsHold(Apply(s, step))
  {
    PhaseStep(s, step);
  }

  /** In every interleaving the state's rank never falls and Exited and Failed are final. */
  lemma {:induction false} RunMovesOn(s: State, steps: seq<Step>, t: State)
    requires Inv(s) && Runs(s, steps, t)
    ensures Inv(t) && MovesOn(s.state, t.state)
    decreases |steps|
  {
    hide Inv, Enabled, Apply;
    if steps != [] {
      StepKeeps(s, steps[0]);
      RunMovesOn(Apply(s, steps[0]), steps[1..], t);
    }
  }

  lemma InitialHolds()
    ensures Inv(INITIAL)
  {
  }

  /** The exit channel is closed at most once, and only with the state at Exited: never stranded in Stopping. */
  lemma ClosedMeansExited(steps: seq<Step>, s: State)
    requires Runs(INITIAL, steps, s)
    ensures s.exitCloses <= 1
    ensures s.exitCloses == 1 ==> s.state == Exited
  {
    InitialHolds();
    RunMovesOn(INITIAL, steps, s);
  }

  /** With the two swaps the other way round, a Stop between them strands the state in Stopping for good. */
  lemma SwappedOrderStrands()
    ensures exists steps, s :: Runs(Fresh(StoppingFirst), steps, s) && s.exitCloses == 1 && s.state == Stopping
  {
    var s1 := Apply(Fresh(StoppingFirst), Start(0));
    var s2 := Apply(Apply(s1, StartSwap), Spawn);
    var s3 := Apply(Apply(s2, StoreRunning), Stop(0));
    var s4 := Apply(Apply(s3, Die), SeeExit);
    var s5 := Apply(Apply(s4, SwapFirst), StopSwap(0));
    var s6 := Apply(Apply(s5, SwapSecond), CloseExited);
    assert s6.exitCloses == 1 && s6.state == Stopping;
    hide Apply, Enabled;
    RunsNone(s6);
    var r6 := RunsPair(s5, SwapSecond, CloseExited, [], s6);
    var r5 := RunsPair(s4, SwapFirst, StopSwap(0), r6, s6);
    var r4 := RunsPair(s3, Die, SeeExit, r5, s6);
    var r3 := RunsPair(s2, StoreRunning, Stop(0), r4, s6);
    var r2 := RunsPair(s1, StartSwap, Spawn, r3, s6);
    RunsCons(Fresh(StoppingFirst), Start(0), r2, s6);
  }

  lemma RunsNone(s: State)
    ensures Runs(s, [], s)
  {
  }

  lemma RunsCons(s: State, step: Step, rest: seq<Step>, t: State)
    requires Enabled(s, step) && Runs(Apply(s, step), rest, t)
    ensures Runs(s, [step] + rest, t)
  {
    hide Enabled, Apply;
    assert ([step] + rest)[1..] == rest;
  }

  lemma RunsPair(s: State, a: Step, b: Step, rest: seq<Step>, t: State) returns (steps: seq<Step>)
    requires Enabled(s, a) && Enabled(Apply(s, a), b) && Runs(Apply(Apply(s, a), b), rest, t)
    ensures Runs(s, steps, t)
  {
    hide Enabled, Apply, Runs;
    RunsCons(Apply(s, a), b, rest, t);
    RunsCons(s, a, [b] + rest, t);
    steps := [a] + ([b] + rest);
  }

  // ---------------------------------------------------------------- exit is noticed

  /** What the watcher still has to do once the process is dead. */
  function WatchLeft(w: Watcher): nat {
    match w
    case NotWatching => 5
    case WaitingForExit => 4
    case SawExit => 3
    case SwappedOnce => 2
    case SwappedTwice => 1
    case Closed => 0
  }

  function WatchStep(w: Watcher): Step
    requires !w.NotWatching? && !w.Closed?
  {
    match w
    case WaitingForExit => SeeExit
    case SawExit => SwapFirst
    case SwappedOnce => SwapSecond
    case SwappedTwice => CloseExited
  }

  /** A started process that has died is brought to Exited by the watcher's own steps alone. */
  lemma {:induction false} DeadProcessExits(s: State) returns (steps: seq<Step>, t: State)
    requires Inv(s) && s.guard.Completed? && s.guard.ok && !s.alive
    ensures Runs(s, steps, t) && t.state == Exited && t.exitCloses == 1 && |steps| <= 4 && t.waits == s.waits
    ensures forall i :: 0 <= i < |steps| ==> steps[i] in {SeeExit, SwapFirst, SwapSecond, CloseExited}
    ensures |steps| <= WatchLeft(s.watcher)
    decreases WatchLeft(s.watcher)
  {
    if s.watcher.Closed? {
      return [], s;
    }
    var step := WatchStep(s.watcher);
    StepKeeps(s, step);
    var u := Apply(s, step);
    assert u.guard == s.guard && !u.alive && WatchLeft(u.watcher) < WatchLeft(s.watcher) && u.waits == s.waits;
    hide Inv, Apply;
    var rest: seq<Step>;
    rest, t := DeadProcessExits(u);
    steps := [step] + rest;
    assert steps[1..] == rest;
  }

  // ---------------------------------------------------------------- a failed start

  /** A failed start never closes the exit channel, so a Wait that read the state before the failure never returns. */
  lemma {:induction false} WaitOutlivesFailure(s: State, steps: seq<Step>, t: State, w: nat)
    requires Inv(s) && s.state == Failed && w in s.waits && s.waits[w].WaitBlocked?
    requires Runs(s, steps, t)
    ensures w in t.waits && t.waits[w].WaitBlocked? && t.exitCloses == 0
    decreases |steps|
  {
    if steps != [] {
      StepKeeps(s, steps[0]);
      BlockedStays(s, steps[0], w);
      hide Inv, Apply, Enabled;
      WaitOutlivesFailure(Apply(s, steps[0]), steps[1..], t, w);
    }
  }

  lemma BlockedStays(s: State, step: Step, w: nat)
    requires Inv(s) && s.state == Failed && w in s.waits && s.waits[w].WaitBlocked? && Enabled(s, step)
    ensures w in Apply(s, step).waits && Apply(s, step).waits[w].WaitBlocked?
  {
  }

  /** A blocked Wait of a process that did not fail returns in some run: it is started, dies and is watched. */
  lemma BlockedWaitCanReturn(s: State, w: nat) returns (steps: seq<Step>, t: State)
    requires Inv(s) && s.state != Failed && w in s.waits && s.waits[w].WaitBlocked?
    ensures Runs(s, steps, t) && w in t.waits && t.waits[w] == WaitReturned(false)
  {
    if s.guard.Completed? {
      steps, t := StartedWaitCanReturn(s, w);
    } else if At(s, Spawned) {
      steps, t := SpawnedWaitCanReturn(s, w);
    } else {
      assert At(s, Spawning);
      var u := Apply(s, Spawn);
      StepKeeps(s, Spawn);
      assert At(u, Spawned) && u.state != Failed && u.waits == s.waits;
      hide Inv, Apply, Enabled;
      var rest: seq<Step>;
      rest, t := SpawnedWaitCanReturn(u, w);
      RunsCons(s, Spawn, rest, t);
      steps := [Spawn] + rest;
    }
  }

  lemma SpawnedWaitCanReturn(s: State, w: nat) returns (steps: seq<Step>, t: State)
    requires Inv(s) && At(s, Spawned) && w in s.waits && s.waits[w].WaitBlocked?
    ensures Runs(s, steps, t) && w in t.waits && t.waits[w] == WaitReturned(false)
  {
    var u := Apply(s, StoreRunning);
    StepKeeps(s, StoreRunning);
    assert u.guard.Completed? && u.guard.ok && u.waits == s.waits;
    hide Inv, Apply, Enabled;
    var rest: seq<Step>;
    rest, t := StartedWaitCanReturn(u, w);
    RunsCons(s, StoreRunning, rest, t);
    steps := [StoreRunning] + rest;
  }

  lemma StartedWaitCanReturn(s: State, w: nat) returns (steps: seq<Step>, t: State)
    requires Inv(s) && s.guard.Completed? && s.state != Failed && w in s.waits && s.waits[w].WaitBlocked?
    ensures Runs(s, steps, t) && w in t.waits && t.waits[w] == WaitReturned(false)
  {
    assert s.guard.ok;
    var u := if s.alive then Apply(s, Die) else s;
    if s.alive {
      StepKeeps(s, Die);
    }
    var rest, v := DeadProcessExits(u);
    t := Apply(v, WaitSeesExit(w));
    hide Inv, Apply;
    steps := RunsThen(u, rest, v, WaitSeesExit(w));
    if s.alive {
      RunsCons(s, Die, steps, t);
      steps := [Die] + steps;
    }
  }

  lemma {:induction false} RunsThen(s: State, steps: seq<Step>, t: State, step: Step) returns (all: seq<Step>)
    requires Runs(s, steps, t) && Enabled(t, step)
    ensures Runs(s, all, Apply(t, step))
    decreases |steps|
  {
    hide Enabled, Apply;
    if steps == [] {
      RunsNone(Apply(t, step));
      RunsCons(s, step, [], Apply(t, step));
      all := [step] + [];
    } else {
      var rest := RunsThen(Apply(s, steps[0]), steps[1..], t, step);
      RunsCons(s, steps[0], rest, Apply(t, step));
      all := [steps[0]] + rest;
    }
  }

  ghost predicate CanReturn(s: State, w: nat) {
    exists steps, t :: Runs(s, steps, t) && w in t.waits && t.waits[w].WaitReturned?
  }

  /** In every reachable state a blocked Wait can still return if and only if the process has not failed. */
  lemma WaitReturnsUnlessFailed(before: seq<Step>, s: State, w: nat)
    requires Runs(INITIAL, before, s) && w in s.waits && s.waits[w].WaitBlocked?
    ensures CanReturn(s, w) <==> s.state != Failed
  {
    InitialHolds();
    RunMovesOn(INITIAL, before, s);
    hide Inv, Runs;
    if s.state == Failed {
      forall steps, t | Runs(s, steps, t) ensures w in t.waits && t.waits[w].WaitBlocked? {
        WaitOutlivesFailure(s, steps, t, w);
      }
    } else {
      var steps, t := BlockedWaitCanReturn(s, w);
    }
  }

  /** Such a Wait exists: it reads Starting, then the spawn fails. */
  lemma WaitDuringFailedStart()
    ensures exists steps, s :: Runs(INITIAL, steps, s) && s.state == Failed && 0 in s.waits && s.waits[0].WaitBlocked?
  {
    var s1 := Apply(Apply(INITIAL, Start(0)), StartSwap);
    var s2 := Apply(Apply(s1, Wait(0)), StartFails);
    assert s2.state == Failed && s2.waits[0].WaitBlocked?;
    hide Apply, Enabled;
    RunsNone(s2);
    var r1 := RunsPair(s1, Wait(0), StartFails, [], s2);
    var r0 := RunsPair(INITIAL, Start(0), StartSwap, r1, s2);
  }

  /**
   * In every run a Start call reports an error if and only if it was the one inside the guard and the guard
   * ended in failure; every other call, before or after the failure, reports none.
   */
  lemma StartErrorExactly(steps: seq<Step>, s: State, a: nat)
    requires Runs(INITIAL, steps, s) && a in s.starts
    ensures s.starts[a] == StartReturned(true) <==> s.guard.Completed? && s.guard.starter == a && !s.guard.ok
    ensures s.guard.Completed? && !s.guard.ok <==> s.state == Failed
  {
    InitialHolds();
    RunMovesOn(INITIAL, steps, s);
    hide Runs;
  }

  /** So a Start that begins once the process has failed never reports an error, however the run goes on. */
  lemma LaterStartReportsNothing(before: seq<Step>, s: State, a: nat, after: seq<Step>, t: State)
    requires Runs(INITIAL, before, s) && s.state == Failed && a !in s.starts && Runs(s, after, t)
    ensures a in t.starts ==> t.starts[a] != StartReturned(true)
  {
    InitialHolds();
    RunMovesOn(INITIAL, before, s);
    RunMovesOn(s, after, t);
    FailedGuardStays(s, after, t);
    hide Runs;
  }

  lemma {:induction false} FailedGuardStays(s: State, steps: seq<Step>, t: State)
    requires Runs(s, steps, t) && s.guard.Completed?
    ensures t.guard == s.guard
    decreases |steps|
  {
    if steps != [] {
      assert Apply(s, steps[0]).guard == s.guard;
      hide Apply, Enabled;
      FailedGuardStays(Apply(s, steps[0]), steps[1..], t);
    }
  }

  // ---------------------------------------------------------------- from start to stop

  /** A process that nobody has started is running, and its start reports no error, once Start has made its steps. */
  lemma StartRuns(before: seq<Step>, s: State, a: nat) returns (t: State)
    requires Runs(INITIAL, before, s) && s.guard.Untaken? && a !in s.starts
    ensures Runs(s, [Start(a), StartSwap, Spawn, StoreRunning], t)
    ensures t.state == Running && t.alive && t.starts[a := StartReturned(false)] == t.starts && t.watcher == WaitingForExit
  {
    InitialHolds();
    RunMovesOn(INITIAL, before, s);
    var u := Apply(s, Start(a));
    var v := Apply(u, StartSwap);
    var w := Apply(v, Spawn);
    t := Apply(w, StoreRunning);
    hide Inv, Apply, Enabled;
    RunsNone(t);
    RunsCons(w, StoreRunning, [], t);
    RunsCons(v, Spawn, [StoreRunning] + [], t);
    RunsCons(u, StartSwap, [Spawn] + ([StoreRunning] + []), t);
    RunsCons(s, Start(a), [StartSwap] + ([Spawn] + ([StoreRunning] + [])), t);
    assert [Start(a)] + ([StartSwap] + ([Spawn] + ([StoreRunning] + []))) == [Start(a), StartSwap, Spawn, StoreRunning];
  }

  /** The watcher's steps, and those of the Stop x. */
  predicate WatchesOrStops(step: Step, x: nat) {
    step in {SeeExit, SwapFirst, SwapSecond, CloseExited} || step in {Stop(x), StopSwap(x), StopSignal(x), StopDeadline(x), StopSeesExit(x)}
  }

  /**
   * A Stop of a process that was started brings it to Exited, whatever the process does, and then returns, by its
   * own steps and the watcher's alone: when its deadline passes it kills the process.
   */
  lemma StopBringsDown(before: seq<Step>, s: State, x: nat) returns (steps: seq<Step>, t: State)
    requires Runs(INITIAL, before, s) && s.guard.Completed? && s.guard.ok && x !in s.stops
    ensures Runs(s, steps, t) && t.state == Exited && !t.alive && x in t.stops && t.stops[x] == StopReturned
    ensures forall i :: 0 <= i < |steps| ==> WatchesOrStops(steps[i], x)
  {
    InitialHolds();
    RunMovesOn(INITIAL, before, s);
    hide Runs, WatchesOrStops;
    StepKeeps(s, Stop(x));
    var u := Apply(s, Stop(x));
    if s.state == Exited {
      t := u;
      steps := [Stop(x)] + [];
      OneRun(s, Stop(x));
      StopSteps(x);
    } else {
      assert StopIn(u, x, StopRead) && u.guard == s.guard;
      var rest: seq<Step>;
      rest, t := StopFinishes(u, x);
      StopSteps(x);
      hide Inv, Apply, Enabled;
      RunsCons(s, Stop(x), rest, t);
      steps := [Stop(x)] + rest;
    }
  }

  lemma OneRun(s: State, step: Step)
    requires Enabled(s, step)
    ensures Runs(s, [step] + [], Apply(s, step))
  {
    hide Enabled, Apply;
    RunsNone(Apply(s, step));
    RunsCons(s, step, [], Apply(s, step));
  }

  lemma StopSteps(x: nat)
    ensures WatchesOrStops(Stop(x), x) && WatchesOrStops(StopSwap(x), x) && WatchesOrStops(StopSignal(x), x)
    ensures WatchesOrStops(StopDeadline(x), x) && WatchesOrStops(StopSeesExit(x), x)
  {
  }

  /** From the reading of the state on. */
  lemma StopFinishes(s: State, x: nat) returns (steps: seq<Step>, t: State)
    requires Inv(s) && s.guard.Completed? && s.guard.ok && StopIn(s, x, StopRead)
    ensures Runs(s, steps, t) && t.state == Exited && !t.alive && x in t.stops && t.stops[x] == StopReturned
    ensures forall i :: 0 <= i < |steps| ==> WatchesOrStops(steps[i], x)
  {
    hide Runs, WatchesOrStops;
    StepKeeps(s, StopSwap(x));
    var u := Apply(s, StopSwap(x));
    StepKeeps(u, StopSignal(x));
    var v := Apply(u, StopSignal(x));
    var rest: seq<Step>;
    rest, t := DeadlineFinishes(v, x);
    StopSteps(x);
    hide Inv, Apply, Enabled;
    RunsCons(u, StopSignal(x), rest, t);
    RunsCons(s, StopSwap(x), [StopSignal(x)] + rest, t);
    steps := [StopSwap(x)] + ([StopSignal(x)] + rest);
  }

  /** From the deadline on: the process is killed, the watcher marks the exit, and Stop sees it. */
  lemma DeadlineFinishes(s: State, x: nat) returns (steps: seq<Step>, t: State)
    requires Inv(s) && s.guard.Completed? && s.guard.ok && StopIn(s, x, StopAwaits)
    ensures Runs(s, steps, t) && t.state == Exited && !t.alive && x in t.stops && t.stops[x] == StopReturned
    ensures forall i :: 0 <= i < |steps| ==> WatchesOrStops(steps[i], x)
  {
    StepKeeps(s, StopDeadline(x));
    var u := Apply(s, StopDeadline(x));
    var rest, v := DeadProcessExits(u);
    hide Runs;
    RunMovesOn(u, rest, v);
    WatcherLeavesStops(u, rest, v);
    StepKeeps(v, StopSeesExit(x));
    t := Apply(v, StopSeesExit(x));
    assert t.state == Exited && !t.alive;
    hide Inv, Apply;
    var more := RunsThenLast(u, rest, v, StopSeesExit(x));
    RunsCons(s, StopDeadline(x), more, t);
    steps := [StopDeadline(x)] + more;
  }

  lemma {:induction false} WatcherLeavesStops(s: State, steps: seq<Step>, t: State)
    requires Runs(s, steps, t) && forall i :: 0 <= i < |steps| ==> steps[i] in {SeeExit, SwapFirst, SwapSecond, CloseExited}
    ensures t.stops == s.stops
    decreases |steps|
  {
    if steps != [] {
      var u := Apply(s, steps[0]);
      assert u.stops == s.stops;
      hide Apply, Enabled;
      forall i | 0 <= i < |steps[1..]| ensures steps[1..][i] in {SeeExit, SwapFirst, SwapSecond, CloseExited} {
        assert steps[1..][i] == steps[i + 1];
      }
      WatcherLeavesStops(u, steps[1..], t);
    }
  }

  lemma {:induction false} RunsThenLast(s: State, steps: seq<Step>, t: State, step: Step) returns (all: seq<Step>)
    requires Runs(s, steps, t) && Enabled(t, step)
    ensures Runs(s, all, Apply(t, step)) && all == steps + [step]
    decreases |steps|
  {
    hide Enabled, Apply;
    if steps == [] {
      RunsNone(Apply(t, step));
      RunsCons(s, step, [], Apply(t, step));
      all := [step] + [];
    } else {
      var rest := RunsThenLast(Apply(s, steps[0]), steps[1..], t, step);
      RunsCons(s, steps[0], rest, Apply(t, step));
      all := [steps[0]] + rest;
      assert steps == [steps[0]] + steps[1..];
    }
  }

  /** What a Stop and a Wait make of the state they read: which return at once, and which Wait is refused. */
  lemma CallsRead(s: State, x: nat)
    ensures x !in s.stops ==>
              (Apply(s, Stop(x)).stops[x] == StopReturned <==> s.state == Exited || s.state == Failed || s.state == Created)
    ensures x !in s.waits ==>
              (Apply(s, Wait(x)).waits[x] == WaitReturned(true) <==> s.state == Created || s.state == Failed)
              && (Apply(s, Wait(x)).waits[x] == WaitBlocked <==> s.state != Created && s.state != Failed)
  {
  }

  /** A Wait that begins after the exit channel was closed returns by its own steps. */
  lemma WaitAfterExit(before: seq<Step>, s: State, w: nat) returns (t: State)
    requires Runs(INITIAL, before, s) && s.exitCloses == 1 && w !in s.waits
    ensures Runs(s, [Wait(w), WaitSeesExit(w)], t) && w in t.waits && t.waits[w] == WaitReturned(false)
  {
    ClosedMeansExited(before, s);
    var u := Apply(s, Wait(w));
    t := Apply(u, WaitSeesExit(w));
    hide Apply, Enabled;
    RunsNone(t);
    RunsCons(u, WaitSeesExit(w), [], t);
    RunsCons(s, Wait(w), [WaitSeesExit(w)] + [], t);
    assert [Wait(w)] + ([WaitSeesExit(w)] + []) == [Wait(w), WaitSeesExit(w)];
  }
}
