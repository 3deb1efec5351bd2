/** The order of the steps: in every interleaving each thread of the observer takes the steps of its
    program, in order and without leaving one out. */
module ProgressProgram {
  import opened Json
  import opened Progress
  import opened ProgressRecords

  predicate IsCall(a: Action) { a.CallStart? || a.CallPhase? || a.CallClose? }

  predicate ByMain(a: Action) {
    || IsCall(a) || a.SetStage? || a.MainEmit? || a.MainEmitted? || a.Spawn? || a.Assign?
    || a.SetStop? || a.Join? || a.CloseTerminal?
  }

  predicate ByHeartbeat(a: Action) { a.Tick? || a.Notice? || a.Beat? || a.BeatEmitted? }

  // One emission.

  /** After a step of an emission, taken in `s`: the step that comes next, or none if it is over. */
  predicate EmitThen(s: State, a: Emit, b: Option<Emit>) {
    match a
    case Acquire => b == Some(Examine)
    case Examine => if s.stop || s.messages >= 120 then b == None else b.Some? && b.value.Try?
    case Try(OpenTerminal) => b.Some? && b.value.Try?
    case Try(Complete(_)) => b == Some(Account)
    case Try(_) => b == Some(Halt)
    case _ => b == None
  }

  /** The step at which an emission stands. */
  predicate StandsBefore(e: Emission, b: Option<Emit>) {
    match e
    case Outside => b == None
    case Wanting => b == Some(Acquire)
    case Holding => b == Some(Examine)
    case Ready(_) => b.Some? && b.value.Try?
    case Written => b == Some(Account)
    case Failing => b == Some(Halt)
  }

  lemma EmitOrder(s: State, t: Thread, e: Emission, a: Emit, b: Option<Emit>)
    requires EmitStep(s, t, e, a).Some?
    ensures StandsBefore(e, Some(a))
    ensures StandsBefore(EmitStep(s, t, e, a).value.1, b) ==> EmitThen(s, a, b)
  {
    hide Render;
  }

  // The main thread.

  /** The last call among the first `i` actions is a start. */
  predicate Starting(actions: seq<Action>, i: nat)
    requires i <= |actions|
  {
    i > 0 && if IsCall(actions[i - 1]) then actions[i - 1].CallStart? else Starting(actions, i - 1)
  }

  /** After its step `a`, taken in `s`, the main thread's next step is `b`; `starting` says that the
      call it belongs to is a start. */
  predicate MainThen(s: State, a: Action, b: Action, starting: bool) {
    match a
    case CallStart => if s.joinable || s.stop then IsCall(b) else b.SetStage?
    case CallPhase(name) => if name in PHASES then b.SetStage? else IsCall(b)
    case CallClose => b.SetStop?
    case SetStage => b == MainEmit(Acquire)
    case MainEmit(step) =>
      if b.MainEmit? then EmitThen(s, step, Some(b.step)) else b.MainEmitted? && EmitThen(s, step, None)
    case MainEmitted => if starting && !s.stop then b.Spawn? else IsCall(b)
    case Spawn(succeeds) => if succeeds then b.Assign? else IsCall(b)
    case SetStop => if s.joinable then b.Join? else b.CloseTerminal?
    case Join => b.CloseTerminal?
    case _ => IsCall(b)
  }

  /** The step at which the main thread stands. */
  predicate MainBefore(m: Main, b: Action) {
    match m
    case Idle => IsCall(b)
    case Setting(_, _) => b.SetStage?
    case Emitting(e, _) =>
      if b.MainEmit? then StandsBefore(e, Some(b.step)) else b.MainEmitted? && StandsBefore(e, None)
    case Spawning => b.Spawn?
    case Assigning => b.Assign?
    case Stopping => b.SetStop?
    case Joining => b.Join?
    case Releasing => b.CloseTerminal?
  }

  /** The thread remembers whether its call is a start. */
  predicate Remembers(m: Main, starting: bool) {
    && (m.Setting? ==> m.starting == starting) && (m.Emitting? ==> m.starting == starting)
  }

  lemma MainOrder(s: State, a: Action, b: Action, starting: bool)
    requires ByMain(a) && Next(s, a).Some? && Remembers(s.main, starting) && ByMain(b)
    ensures MainBefore(s.main, a)
    ensures MainBefore(Next(s, a).value.main, b) ==> MainThen(s, a, b, starting)
  {
    hide EmitStep;
    match a
    case MainEmit(step) =>
      EmitOrder(s, MainThread, s.main.emission, step, if b.MainEmit? then Some(b.step) else None);
      EmitLeaves(s, MainThread, s.main.emission, step);
    case _ =>
  }

  lemma MainStands(s: State, a: Action)
    requires !ByMain(a) && Next(s, a).Some?
    ensures Next(s, a).value.main == s.main
  {
    hide EmitStep;
    if a.Beat? { EmitLeaves(s, HeartbeatThread, s.heartbeat.beat, a.step); }
  }

  lemma {:induction false} MainRemembers(states: seq<State>, actions: seq<Action>, i: nat)
    requires Run(states, actions) && i <= |actions|
    ensures Remembers(states[i].main, Starting(actions, i))
  {
    hide Next;
    if i > 0 {
      MainRemembers(states, actions, i - 1);
      assert Next(states[i - 1], actions[i - 1]) == Some(states[i - 1 + 1]);
      StepRemembers(states[i - 1], actions[i - 1], Starting(actions, i - 1));
    }
  }

  lemma StepRemembers(s: State, a: Action, starting: bool)
    requires Next(s, a).Some? && Remembers(s.main, starting)
    ensures Remembers(Next(s, a).value.main, if IsCall(a) then a.CallStart? else starting)
  {
    hide EmitStep;
    match a
    case MainEmit(step) => EmitLeaves(s, MainThread, s.main.emission, step);
    case Beat(step) => EmitLeaves(s, HeartbeatThread, s.heartbeat.beat, step);
    case _ =>
  }

  /** In every run, whatever the heartbeat does in between, two successive steps of the main thread
      follow its program; its first step is a call. */
  lemma MainFollowsProgram(states: seq<State>, actions: seq<Action>, i: nat, j: nat)
    requires Run(states, actions) && i < j < |actions| && ByMain(actions[i]) && ByMain(actions[j])
    requires forall k | i < k < j :: !ByMain(actions[k])
    ensures MainThen(states[i], actions[i], actions[j], Starting(actions, i))
  {
    hide Next, MainThen, MainBefore;
    MainRemembers(states, actions, i);
    assert Next(states[i], actions[i]) == Some(states[i + 1]);
    MainOrder(states[i], actions[i], actions[j], Starting(actions, i));
    MainWaits(states, actions, i + 1, j);
    assert Next(states[j], actions[j]) == Some(states[j + 1]);
    MainRemembers(states, actions, j);
    MainOrder(states[j], actions[j], actions[j], Starting(actions, j));
  }

  lemma {:induction false} MainWaits(states: seq<State>, actions: seq<Action>, i: nat, j: nat)
    requires Run(states, actions) && i <= j <= |actions| && forall k | i <= k < j :: !ByMain(actions[k])
    ensures states[j].main == states[i].main
    decreases j
  {
    hide Next;
    if i < j {
      MainWaits(states, actions, i, j - 1);
      assert Next(states[j - 1], actions[j - 1]) == Some(states[j - 1 + 1]);
      MainStands(states[j - 1], actions[j - 1]);
    }
  }

  lemma MainStartsWithACall(states: seq<State>, actions: seq<Action>, j: nat)
    requires Run(states, actions) && j < |actions| && ByMain(actions[j])
    requires forall k | 0 <= k < j :: !ByMain(actions[k])
    ensures IsCall(actions[j])
  {
    hide Next;
    MainWaits(states, actions, 0, j);
    assert Next(states[j], actions[j]) == Some(states[j + 1]);
    MainRemembers(states, actions, j);
    MainOrder(states[j], actions[j], actions[j], Starting(actions, j));
  }

  // The heartbeat.

  predicate BeatThen(s: State, a: Action, b: Action) {
    match a
    case Tick => b == Beat(Acquire)
    case Beat(step) => if b.Beat? then EmitThen(s, step, Some(b.step)) else b.BeatEmitted? && EmitThen(s, step, None)
    case BeatEmitted => b.Tick? || b.Notice?
    case _ => false
  }

  predicate BeatBefore(h: Heartbeat, b: Action) {
    match h
    case Waiting => b.Tick? || b.Notice?
    case Beating(e) => if b.Beat? then StandsBefore(e, Some(b.step)) else b.BeatEmitted? && StandsBefore(e, None)
    case _ => false
  }

  lemma BeatOrder(s: State, a: Action, b: Action)
    requires ByHeartbeat(a) && Next(s, a).Some? && ByHeartbeat(b)
    ensures BeatBefore(s.heartbeat, a)
    ensures BeatBefore(Next(s, a).value.heartbeat, b) ==> BeatThen(s, a, b)
  {
    hide EmitStep;
    match a
    case Beat(step) => EmitOrder(s, HeartbeatThread, s.heartbeat.beat, step, if b.Beat? then Some(b.step) else None);
    case _ =>
  }

  /** Between its own steps the heartbeat stays where it is, or is brought to life. */
  lemma BeatStands(s: State, a: Action)
    requires Inv(s) && !ByHeartbeat(a) && Next(s, a).Some?
    ensures Next(s, a).value.heartbeat == if a == Spawn(true) then Waiting else s.heartbeat
    ensures a == Spawn(true) ==> s.heartbeat == Unborn
  {
    hide EmitStep, LockKept, Counted, Honest, WellWritten, Owned, Prepared, Clean;
    if a.MainEmit? { EmitLeaves(s, MainThread, s.main.emission, a.step); }
  }

  /** Two successive steps of the heartbeat follow its program: it emits after each tick, and
      nothing comes after it has noticed the stop. */
  lemma HeartbeatFollowsProgram(states: seq<State>, actions: seq<Action>, i: nat, j: nat)
    requires Run(states, actions) && i < j < |actions| && ByHeartbeat(actions[i]) && ByHeartbeat(actions[j])
    requires forall k | i < k < j :: !ByHeartbeat(actions[k])
    ensures BeatThen(states[i], actions[i], actions[j])
  {
    hide Next, BeatThen, BeatBefore, Inv;
    assert Next(states[i], actions[i]) == Some(states[i + 1]);
    BeatOrder(states[i], actions[i], actions[j]);
    HeartbeatLives(states, actions, i);
    HeartbeatWaits(states, actions, i + 1, j);
    assert Next(states[j], actions[j]) == Some(states[j + 1]);
    BeatOrder(states[j], actions[j], actions[j]);
  }

  lemma HeartbeatLives(states: seq<State>, actions: seq<Action>, i: nat)
    requires Run(states, actions) && i < |actions| && ByHeartbeat(actions[i])
    ensures states[i + 1].heartbeat != Unborn
  {
    hide EmitStep;
    assert Next(states[i], actions[i]) == Some(states[i + 1]);
  }

  lemma {:induction false} HeartbeatWaits(states: seq<State>, actions: seq<Action>, i: nat, j: nat)
    requires Run(states, actions) && i <= j <= |actions| && forall k | i <= k < j :: !ByHeartbeat(actions[k])
    requires states[i].heartbeat != Unborn
    ensures states[j].heartbeat == states[i].heartbeat
    decreases j
  {
    hide Next, Inv;
    if i < j {
      HeartbeatWaits(states, actions, i, j - 1);
      assert Next(states[j - 1], actions[j - 1]) == Some(states[j - 1 + 1]);
      RunKeeps(states, actions, j - 1);
      BeatStands(states[j - 1], actions[j - 1]);
    }
  }

  // Nothing is stuck.

  /** The main thread can always take its next step, except that it waits for the lock while the
      heartbeat holds it, and for the heartbeat's end when it joins it. */
  lemma MainCanGoOn(s: State) returns (a: Action)
    requires Inv(s)
    requires s.lock == Some(HeartbeatThread) ==> !s.main.Setting? && !MainAt(s).Wanting?
    requires s.main.Joining? ==> s.heartbeat.Ended?
    ensures ByMain(a) && Next(s, a).Some?
  {
    hide Render, RenderAll, Records, STAGES, Honest, WellWritten, Owned, Lifecycle, Clean, Counted;
    LockHolder(s);
    match s.main
    case Idle => a := CallClose;
    case Setting(_, _) => a := SetStage;
    case Emitting(e, _) => a := if e.Outside? then MainEmitted else MainEmit(StepFrom(e));
    case Spawning => a := Spawn(true);
    case Assigning => a := Assign;
    case Stopping => a := SetStop;
    case Joining => a := Join;
    case Releasing => a := CloseTerminal;
  }

  lemma LockHolder(s: State)
    ensures s.lock in {None, Some(MainThread), Some(HeartbeatThread)}
  {
    if s.lock.Some? {
      match s.lock.value
      case MainThread =>
      case HeartbeatThread =>
    }
  }

  function StepFrom(e: Emission): Emit {
    match e
    case Wanting => Acquire
    case Holding => Examine
    case Ready(_) => Try(Complete(false))
    case Written => Account
    case _ => Halt
  }

  /** So can a heartbeat that has been brought to life and has not ended. */
  lemma HeartbeatCanGoOn(s: State) returns (a: Action)
    requires Inv(s) && (s.heartbeat.Waiting? || s.heartbeat.Beating?)
    requires s.lock == Some(MainThread) ==> !HeartbeatAt(s).Wanting?
    ensures ByHeartbeat(a) && Next(s, a).Some?
  {
    hide Render, RenderAll, Records, STAGES, Honest, WellWritten, Owned, Lifecycle, Clean, Counted;
    LockHolder(s);
    match s.heartbeat
    case Waiting => a := if s.stop then Notice else Tick;
    case Beating(e) => a := if e.Outside? then BeatEmitted else Beat(StepFrom(e));
    case _ => assert false;
  }

  /** Every attempt at a ready record is possible: a complete one, any shorter one, and a fault. */
  lemma AnyAttemptIsPossible(s: State, t: Thread, e: Emission, length: nat)
    requires e.Ready?
    ensures EmitStep(s, t, e, Try(Complete(false))).Some? && EmitStep(s, t, e, Try(Fault)).Some?
    ensures EmitStep(s, t, e, Try(Short(false, length))).Some? <==> length < |Render(e.record)|
    ensures s.terminal.Some? ==> EmitStep(s, t, e, Try(Complete(true))).Some?
    ensures s.terminal.None? ==> EmitStep(s, t, e, Try(OpenTerminal)).Some?
  {
    hide Render;
  }
}
