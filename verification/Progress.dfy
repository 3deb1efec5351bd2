/** The progress observer: a main thread, a heartbeat thread, one lock and one stop flag.

    Each action below is one atomic step of one thread; the scheduler, the write outcomes and
    the failures of thread creation are free. */
module Progress {
  import opened Json

  const MAX_PROGRESS_MESSAGES := 120

  const STAGES: set<string> :=
    {"configuration", "identity", "evidence", "mcp-preflight", "preview", "subprocess",
     "result-validation", "mcp-use", "dlp", "cleanup", "reporting"}

  datatype Record = Record(waiting: bool, stage: string)

  function Render(r: Record): string {
    "OCR progress: " + (if r.waiting then "waiting " else "") + "phase=" + r.stage + "\n"
  }

  function RenderAll(log: seq<Record>): string {
    if log == [] then "" else RenderAll(log[..|log| - 1]) + Render(log[|log| - 1])
  }

  // Where each thread stands.

  /** A thread inside an emission; all but `Wanting` hold the lock. */
  datatype Emission =
    | Outside
    | Wanting
    | Holding
    | Ready(record: Record)
    | Written
    | Failing

  datatype Main =
    | Idle
    | Setting(stage: string, starting: bool)
    | Emitting(emission: Emission, starting: bool)
    | Spawning
    | Assigning
    | Stopping
    | Joining
    | Releasing

  datatype Heartbeat =
    | Unborn
    | Waiting
    | Beating(beat: Emission)
    | Ended

  datatype Thread = MainThread | HeartbeatThread

  /** `entry.stage` is what a record says; `current` is the observer's stage when it was written. */
  datatype Entry = Entry(record: Record, current: string)

  datatype State = State(
    stop: bool, stage: string, messages: nat, joinable: bool, terminal: Option<nat>,
    lock: Option<Thread>, main: Main, heartbeat: Heartbeat,
    // The world outside: what was written, the descriptors opened and closed, and whether
    // a closed one was ever written to.
    log: seq<Entry>, tail: string, stream: string,
    issued: nat, live: set<nat>, misused: bool, closed: bool)

  predicate Initial(s: State) {
    && !s.stop && s.stage == "configuration" && s.messages == 0 && !s.joinable && s.terminal == None
    && s.lock == None && s.main == Idle && s.heartbeat == Unborn
    && s.log == [] && s.tail == "" && s.stream == ""
    && s.issued == 0 && s.live == {} && !s.misused && !s.closed
  }

  // Steps.

  /** What an attempt to write a ready record does. */
  datatype Attempt =
    | Complete(throughTerminal: bool)
    | Short(throughTerminal: bool, length: nat)
    | OpenTerminal
    | Fault

  datatype Emit = Acquire | Examine | Try(attempt: Attempt) | Account | Halt

  datatype Action =
    | CallStart
    | CallPhase(name: string)
    | CallClose
    | SetStage
    | MainEmit(step: Emit)
    | MainEmitted
    | Spawn(succeeds: bool)
    | Assign
    | SetStop
    | Join
    | CloseTerminal
    | Tick
    | Notice
    | Beat(step: Emit)
    | BeatEmitted

  /** One step of an emission by thread `t` standing at `e`; `waiting` says who emits. */
  function EmitStep(s: State, t: Thread, e: Emission, step: Emit): Option<(State, Emission)> {
    match step
    case Acquire =>
      if e.Wanting? && s.lock.None? then Some((s.(lock := Some(t)), Holding)) else None
    case Examine =>
      if !e.Holding? then None
      else if s.stop || s.messages >= MAX_PROGRESS_MESSAGES then Some((s.(lock := None), Outside))
      else Some((s, Ready(Record(t.HeartbeatThread?, s.stage))))
    case Try(attempt) =>
      if e.Ready? then Write(s, e.record, attempt) else None
    case Account =>
      if !e.Written? then None
      else Some((s.(messages := s.messages + 1, lock := None,
                    stop := s.stop || s.messages + 1 >= MAX_PROGRESS_MESSAGES),
                 Outside))
    case Halt =>
      if e.Failing? then Some((s.(stop := true, lock := None), Outside)) else None
  }

  function Write(s: State, record: Record, attempt: Attempt): Option<(State, Emission)> {
    match attempt
    case Fault => Some((s, Failing))
    case OpenTerminal =>
      if s.terminal.Some? then None
      else Some((s.(terminal := Some(s.issued), issued := s.issued + 1, live := s.live + {s.issued}), Ready(record)))
    case Complete(through) =>
      if through && s.terminal.None? then None
      else
        Some((Touch(s, through).(log := s.log + [Entry(record, s.stage)], stream := s.stream + Render(record)),
              Written))
    case Short(through, length) =>
      if (through && s.terminal.None?) || length >= |Render(record)| then None
      else
        var part := Render(record)[..length];
        Some((Touch(s, through).(tail := s.tail + part, stream := s.stream + part), Failing))
  }

  /** A write through the terminal descriptor is recorded as a misuse when that is not open. */
  function Touch(s: State, through: bool): State {
    if through && s.terminal.Some? && s.terminal.value !in s.live then s.(misused := true) else s
  }

  function Next(s: State, a: Action): Option<State> {
    match a
    case CallStart =>
      if !s.main.Idle? then None
      else if s.joinable || s.stop then Some(s)
      else Some(s.(main := Setting("configuration", true)))
    case CallPhase(name) =>
      if !s.main.Idle? then None
      else if name !in STAGES then Some(s)
      else Some(s.(main := Setting(name, false)))
    case CallClose =>
      if s.main.Idle? then Some(s.(main := Stopping)) else None
    case SetStage =>
      if s.main.Setting? && s.lock.None?
      then Some(s.(stage := s.main.stage, main := Emitting(Wanting, s.main.starting))) else None
    case MainEmit(step) =>
      if !s.main.Emitting? then None
      else
        var r := EmitStep(s, MainThread, s.main.emission, step);
        if r.None? then None else Some(r.value.0.(main := Emitting(r.value.1, s.main.starting)))
    case MainEmitted =>
      if !(s.main.Emitting? && s.main.emission.Outside?) then None
      else if s.main.starting && !s.stop then Some(s.(main := Spawning)) else Some(s.(main := Idle))
    case Spawn(succeeds) =>
      if !s.main.Spawning? then None
      else if succeeds then Some(s.(main := Assigning, heartbeat := Waiting))
      else Some(s.(main := Idle, stop := true))
    case Assign =>
      if s.main.Assigning? then Some(s.(main := Idle, joinable := true)) else None
    case SetStop =>
      if s.main.Stopping? then Some(s.(stop := true, main := if s.joinable then Joining else Releasing)) else None
    case Join =>
      if s.main.Joining? && s.heartbeat.Ended? then Some(s.(joinable := false, main := Releasing)) else None
    case CloseTerminal =>
      if !s.main.Releasing? then None
      else if s.terminal.None? then Some(s.(main := Idle, closed := true))
      else Some(s.(main := Idle, closed := true, terminal := None, live := s.live - {s.terminal.value}))
    case Tick =>
      if s.heartbeat.Waiting? && !s.stop then Some(s.(heartbeat := Beating(Wanting))) else None
    case Notice =>
      if s.heartbeat.Waiting? && s.stop then Some(s.(heartbeat := Ended)) else None
    case Beat(step) =>
      if !s.heartbeat.Beating? then None
      else
        var r := EmitStep(s, HeartbeatThread, s.heartbeat.beat, step);
        if r.None? then None else Some(r.value.0.(heartbeat := Beating(r.value.1)))
    case BeatEmitted =>
      if s.heartbeat.Beating? && s.heartbeat.beat.Outside? then Some(s.(heartbeat := Waiting)) else None
  }

  /** A run: every state follows from the one before it by some action. */
  predicate Run(states: seq<State>, actions: seq<Action>) {
    && |states| == |actions| + 1
    && Initial(states[0])
    && forall i | 0 <= i < |actions| :: Next(states[i], actions[i]) == Some(states[i + 1])
  }

  // The invariant.

  function MainAt(s: State): Emission { if s.main.Emitting? then s.main.emission else Outside }

  function HeartbeatAt(s: State): Emission { if s.heartbeat.Beating? then s.heartbeat.beat else Outside }

  predicate Holds(e: Emission) { !e.Outside? && !e.Wanting? }

  predicate LockKept(s: State) {
    && (s.lock == Some(MainThread) <==> Holds(MainAt(s)))
    && (s.lock == Some(HeartbeatThread) <==> Holds(HeartbeatAt(s)))
  }

  /** A formatted record still speaks about the current stage, and the bound leaves room for it. */
  predicate Prepared(s: State, t: Thread, e: Emission) {
    && (e.Ready? ==> e.record == Record(t.HeartbeatThread?, s.stage) && s.messages < MAX_PROGRESS_MESSAGES)
    && (e.Written? ==> s.messages < MAX_PROGRESS_MESSAGES)
  }

  predicate Counted(s: State) {
    && s.messages <= MAX_PROGRESS_MESSAGES
    && |s.log| == s.messages + (if MainAt(s).Written? || HeartbeatAt(s).Written? then 1 else 0)
  }

  predicate Honest(s: State) {
    && s.stage in STAGES && (s.main.Setting? ==> s.main.stage in STAGES)
    && forall i | 0 <= i < |s.log| :: s.log[i].record.stage == s.log[i].current && s.log[i].current in STAGES
  }

  function Records(log: seq<Entry>): (r: seq<Record>)
    ensures |r| == |log| && forall i | 0 <= i < |log| :: r[i] == log[i].record
  {
    seq(|log|, i requires 0 <= i < |log| => log[i].record)
  }

  /** The stream is complete records and then at most one broken one; a broken one ends it. */
  ghost predicate WellWritten(s: State) {
    && Spelled(s)
    && (s.tail != "" ==> s.stop || MainAt(s).Failing? || HeartbeatAt(s).Failing?)
  }

  ghost predicate Spelled(s: State) {
    s.stream == RenderAll(Records(s.log)) + s.tail && Broken(s.tail)
  }

  ghost predicate Broken(tail: string) {
    exists r: Record :: r.stage in STAGES && tail < Render(r)
  }

  /** A thread that may write in the current critical section sees no broken record before it. */
  predicate Clean(s: State, e: Emission) {
    e.Ready? || e.Written? ==> s.tail == ""
  }

  predicate Owned(s: State) {
    && !s.misused
    && (forall d | d in s.live :: d < s.issued)
    && (s.terminal.Some? ==> s.terminal.value in s.live)
    && (forall d | d in s.live :: s.terminal == Some(d))
  }

  predicate Lifecycle(s: State) {
    && (s.closed ==> s.stop && s.terminal.None? && (s.heartbeat.Unborn? || s.heartbeat.Ended?))
    && (s.joinable ==> !s.heartbeat.Unborn? && !s.main.Spawning? && !s.main.Assigning?)
    && (s.heartbeat.Waiting? || s.heartbeat.Beating? ==> s.joinable || s.main.Assigning?)
    && (s.main.Spawning? ==> s.heartbeat.Unborn?) && (s.main.Assigning? ==> !s.heartbeat.Unborn?)
    && (s.main.Joining? ==> s.stop && s.joinable)
    && (s.main.Releasing? ==> s.stop && !s.joinable && (s.heartbeat.Unborn? || s.heartbeat.Ended?))
    && (s.heartbeat.Ended? ==> s.stop)
    && (s.main.Setting? && s.main.starting ==> s.heartbeat.Unborn?)
    && (s.main.Emitting? && s.main.starting ==> s.heartbeat.Unborn?)
    && (!s.joinable && !s.main.Assigning? ==> s.heartbeat.Unborn? || s.heartbeat.Ended?)
    && (s.closed ==> !s.joinable && !s.main.Spawning? && !s.main.Assigning? && !Holds(HeartbeatAt(s))
                     && !MainAt(s).Ready? && !MainAt(s).Written? && !MainAt(s).Failing?)
  }

  ghost predicate Inv(s: State) {
    && LockKept(s) && Counted(s) && Honest(s) && WellWritten(s) && Owned(s) && Lifecycle(s)
    && Prepared(s, MainThread, MainAt(s)) && Prepared(s, HeartbeatThread, HeartbeatAt(s))
    && Clean(s, MainAt(s)) && Clean(s, HeartbeatAt(s))
  }

  lemma {:induction false} RenderSnoc(log: seq<Record>, r: Record)
    ensures RenderAll(log + [r]) == RenderAll(log) + Render(r)
  {
    assert (log + [r])[..|log|] == log;
  }

  lemma EmitKeepsLog(s: State, r: Record)
    requires Spelled(s) && s.tail == ""
    ensures Records(s.log + [Entry(r, s.stage)]) == Records(s.log) + [r]
    ensures s.stream + Render(r) == RenderAll(Records(s.log + [Entry(r, s.stage)]))
  {
    RenderSnoc(Records(s.log), r);
  }

  lemma StartInv(s: State)
    requires Initial(s)
    ensures Inv(s)
  {
    assert "" < Render(Record(false, "dlp"));
  }

  // What a step of an emission by thread `t` standing at `e` keeps, whichever thread that is.

  ghost predicate Emits(s: State, t: Thread, e: Emission) {
    && (s.lock == Some(t) <==> Holds(e))
    && s.messages <= MAX_PROGRESS_MESSAGES && Prepared(s, t, e)
    && Spelled(s) && Clean(s, e) && Honest(s) && Owned(s)
    && (Holds(e) && s.tail != "" ==> s.stop || e.Failing?)
  }

  function Pending(e: Emission): nat { if e.Written? then 1 else 0 }

  /** An attempt leaves complete records and at most one broken one, and that only as it fails. */
  lemma WriteSpells(s: State, r: Record, attempt: Attempt)
    requires Spelled(s) && Honest(s) && s.tail == "" && r.stage == s.stage
    requires Write(s, r, attempt).Some?
    ensures Spelled(Write(s, r, attempt).value.0)
  {
    hide Render, RenderAll, Records, Broken, STAGES;
    if attempt.Complete? {
      EmitKeepsLog(s, r);
    } else if attempt.Short? {
      ShortBreaks(s, r, attempt.length);
    }
  }

  lemma SpelledText(s: State, before: State)
    requires s.log == before.log && s.tail == before.tail && s.stream == before.stream
    ensures Spelled(s) == Spelled(before)
  {
  }

  lemma ShortBreaks(s: State, r: Record, length: nat)
    requires length < |Render(r)| && r.stage in STAGES && s.tail == ""
    ensures Broken(s.tail + Render(r)[..length])
    ensures s.stream == RenderAll(Records(s.log)) + s.tail ==>
              s.stream + Render(r)[..length] == RenderAll(Records(s.log)) + (s.tail + Render(r)[..length])
  {
    assert s.tail + Render(r)[..length] == Render(r)[..length];
  }

  lemma EmitKeepsText(s: State, t: Thread, e: Emission, step: Emit)
    requires Emits(s, t, e) && EmitStep(s, t, e, step).Some?
    ensures var (n, after) := EmitStep(s, t, e, step).value;
            Spelled(n) && Clean(n, after) && (n.tail == s.tail || (e.Ready? && after.Failing?))
  {
    hide Render, RenderAll, Records, Broken, STAGES, Spelled, Owned;
    if step.Try? {
      WriteSpells(s, e.record, step.attempt);
    } else {
      SpelledText(EmitStep(s, t, e, step).value.0, s);
    }
  }

  lemma EmitKeepsLock(s: State, t: Thread, e: Emission, step: Emit)
    requires (s.lock == Some(t) <==> Holds(e)) && EmitStep(s, t, e, step).Some?
    ensures var (n, after) := EmitStep(s, t, e, step).value;
            && (n.lock == Some(t) <==> Holds(after))
            && (n.lock == s.lock || (s.lock.None? && n.lock == Some(t)) || (s.lock == Some(t) && n.lock.None?))
  {
    hide Render;
  }

  lemma EmitKeepsBound(s: State, t: Thread, e: Emission, step: Emit)
    requires s.messages <= MAX_PROGRESS_MESSAGES && Prepared(s, t, e) && EmitStep(s, t, e, step).Some?
    ensures var (n, after) := EmitStep(s, t, e, step).value;
            n.messages <= MAX_PROGRESS_MESSAGES && Prepared(n, t, after) && (n.messages == s.messages || Holds(e))
  {
    hide Render;
  }

  lemma EmitKeepsCount(s: State, t: Thread, e: Emission, step: Emit)
    requires EmitStep(s, t, e, step).Some?
    ensures var (n, after) := EmitStep(s, t, e, step).value;
            |n.log| + Pending(e) + s.messages == |s.log| + Pending(after) + n.messages
  {
    hide Render, RenderAll, Records, Broken, STAGES, Spelled, Owned, Honest;
  }

  lemma EmitKeepsRest(s: State, t: Thread, e: Emission, step: Emit)
    requires Emits(s, t, e) && EmitStep(s, t, e, step).Some?
    ensures var (n, after) := EmitStep(s, t, e, step).value; Honest(n) && Owned(n)
  {
    hide Render, Spelled, Honest;
    EmitKeepsHonest(s, t, e, step);
  }

  lemma EmitKeepsHonest(s: State, t: Thread, e: Emission, step: Emit)
    requires Emits(s, t, e) && EmitStep(s, t, e, step).Some?
    ensures Honest(EmitStep(s, t, e, step).value.0)
  {
    hide Render, Spelled, Owned, Honest;
    var n := EmitStep(s, t, e, step).value.0;
    if step == Try(Complete(true)) || step == Try(Complete(false)) {
      LogGrows(s, n, e.record);
    } else {
      LogStays(s, n);
    }
  }

  lemma LogGrows(s: State, n: State, r: Record)
    requires Honest(s) && r.stage == s.stage
    requires n.stage == s.stage && n.main == s.main && n.log == s.log + [Entry(r, s.stage)]
    ensures Honest(n)
  {
    hide STAGES;
  }

  lemma LogStays(s: State, n: State)
    requires Honest(s) && n.stage == s.stage && n.main == s.main && n.log == s.log
    ensures Honest(n)
  {
    hide STAGES;
  }

  lemma EmitLeaves(s: State, t: Thread, e: Emission, step: Emit)
    requires EmitStep(s, t, e, step).Some?
    ensures var (n, after) := EmitStep(s, t, e, step).value;
            && n.main == s.main && n.heartbeat == s.heartbeat && n.stage == s.stage
            && n.joinable == s.joinable && n.closed == s.closed && (s.stop ==> n.stop)
  {
    hide Render;
  }

  lemma EmitMoves(s: State, t: Thread, e: Emission, step: Emit)
    requires EmitStep(s, t, e, step).Some?
    ensures var (n, after) := EmitStep(s, t, e, step).value;
            && (n.terminal == s.terminal || e.Ready?)
            && (after.Ready? || after.Written? || after.Failing? ==> e.Ready? || (e.Holding? && !s.stop))
            && (e.Failing? ==> n.stop)
  {
    hide Render;
  }

  lemma MainEmits(s: State, step: Emit)
    requires Inv(s) && Next(s, MainEmit(step)).Some?
    ensures Inv(Next(s, MainEmit(step)).value)
  {
    hide EmitStep, Spelled, Owned, STAGES;
    var e := s.main.emission;
    EmitKeepsText(s, MainThread, e, step);
    EmitKeepsLock(s, MainThread, e, step);
    EmitKeepsBound(s, MainThread, e, step);
    EmitKeepsCount(s, MainThread, e, step);
    EmitKeepsRest(s, MainThread, e, step);
    EmitLeaves(s, MainThread, e, step);
    EmitMoves(s, MainThread, e, step);
    SpelledText(Next(s, MainEmit(step)).value, EmitStep(s, MainThread, e, step).value.0);
    OwnedKept(Next(s, MainEmit(step)).value, EmitStep(s, MainThread, e, step).value.0);
  }

  lemma BeatEmits(s: State, step: Emit)
    requires Inv(s) && Next(s, Beat(step)).Some?
    ensures Inv(Next(s, Beat(step)).value)
  {
    hide EmitStep, Spelled, Owned, STAGES;
    var e := s.heartbeat.beat;
    EmitKeepsText(s, HeartbeatThread, e, step);
    EmitKeepsLock(s, HeartbeatThread, e, step);
    EmitKeepsBound(s, HeartbeatThread, e, step);
    EmitKeepsCount(s, HeartbeatThread, e, step);
    EmitKeepsRest(s, HeartbeatThread, e, step);
    EmitLeaves(s, HeartbeatThread, e, step);
    EmitMoves(s, HeartbeatThread, e, step);
    SpelledText(Next(s, Beat(step)).value, EmitStep(s, HeartbeatThread, e, step).value.0);
    OwnedKept(Next(s, Beat(step)).value, EmitStep(s, HeartbeatThread, e, step).value.0);
  }

  lemma OwnedKept(s: State, before: State)
    requires s.misused == before.misused && s.live == before.live && s.issued == before.issued
    requires s.terminal == before.terminal
    ensures Owned(s) == Owned(before)
  {
  }

  lemma FirstStage()
    ensures "configuration" in STAGES
  {
  }

  lemma CallKeeps(s: State, a: Action)
    requires Inv(s) && Next(s, a).Some? && (a.CallStart? || a.CallPhase? || a.CallClose? || a.SetStage?)
    ensures Inv(Next(s, a).value)
  {
    hide Render, RenderAll, Records, Broken, STAGES;
    FirstStage();
  }

  lemma StartKeeps(s: State, a: Action)
    requires Inv(s) && Next(s, a).Some? && (a.MainEmitted? || a.Spawn? || a.Assign?)
    ensures Inv(Next(s, a).value)
  {
    hide Render, RenderAll, Records, Broken, STAGES;
    FirstStage();
  }

  lemma CloseKeeps(s: State, a: Action)
    requires Inv(s) && Next(s, a).Some? && (a.SetStop? || a.Join? || a.CloseTerminal?)
    ensures Inv(Next(s, a).value)
  {
    hide Render, RenderAll, Records, Broken, STAGES;
    FirstStage();
  }

  lemma TimerKeeps(s: State, a: Action)
    requires Inv(s) && Next(s, a).Some? && (a.Tick? || a.Notice? || a.BeatEmitted?)
    ensures Inv(Next(s, a).value)
  {
    hide Render, RenderAll, Records, Broken, STAGES;
    FirstStage();
  }

  // Runs.

  lemma StepKeeps(s: State, a: Action)
    requires Inv(s) && Next(s, a).Some?
    ensures Inv(Next(s, a).value)
  {
    match a
    case MainEmit(step) => MainEmits(s, step);
    case Beat(step) => BeatEmits(s, step);
    case CallStart => CallKeeps(s, a);
    case CallPhase(_) => CallKeeps(s, a);
    case CallClose => CallKeeps(s, a);
    case SetStage => CallKeeps(s, a);
    case MainEmitted => StartKeeps(s, a);
    case Spawn(_) => StartKeeps(s, a);
    case Assign => StartKeeps(s, a);
    case SetStop => CloseKeeps(s, a);
    case Join => CloseKeeps(s, a);
    case CloseTerminal => CloseKeeps(s, a);
    case _ => TimerKeeps(s, a);
  }

  lemma {:induction false} RunKeeps(states: seq<State>, actions: seq<Action>, i: nat)
    requires Run(states, actions) && i <= |actions|
    ensures Inv(states[i])
  {
    hide Initial, Next, Inv;
    if i == 0 {
      StartInv(states[0]);
    } else {
      RunKeeps(states, actions, i - 1);
      assert Next(states[i - 1], actions[i - 1]) == Some(states[i - 1 + 1]);
      StepKeeps(states[i - 1], actions[i - 1]);
    }
  }

  /** The promise of the observer about everything it wrote, at every moment of every run. */
  lemma StreamIsBounded(states: seq<State>, actions: seq<Action>, i: nat)
    requires Run(states, actions) && i <= |actions|
    ensures var s := states[i];
            && |s.log| <= 120
            && s.stream == RenderAll(Records(s.log)) + s.tail && Broken(s.tail)
            && (forall k | 0 <= k < |s.log| :: s.log[k].record.stage == s.log[k].current && s.log[k].current in STAGES)
            && !s.misused && |s.live| <= 1
  {
    hide Next, Initial, Broken, Render, RenderAll, Records;
    RunKeeps(states, actions, i);
    var s := states[i];
    AtMostOneLive(s);
  }

  lemma AtMostOneLive(s: State)
    requires Owned(s)
    ensures |s.live| <= 1
  {
    if s.terminal.Some? {
      assert s.live == {s.terminal.value};
    } else {
      assert s.live == {};
    }
  }

  /** The stop flag is never cleared and nothing written is ever taken back. */
  lemma StepMonotone(s: State, a: Action)
    requires Next(s, a).Some?
    ensures var t := Next(s, a).value;
            (s.stop ==> t.stop) && (s.closed ==> t.closed) && s.stream <= t.stream && s.log <= t.log
  {
    hide Render, STAGES;
    match a
    case MainEmit(step) => EmitMonotone(s, MainThread, s.main.emission, step);
    case Beat(step) => EmitMonotone(s, HeartbeatThread, s.heartbeat.beat, step);
    case _ =>
  }

  lemma EmitMonotone(s: State, t: Thread, e: Emission, step: Emit)
    requires EmitStep(s, t, e, step).Some?
    ensures var n := EmitStep(s, t, e, step).value.0;
            (s.stop ==> n.stop) && (s.closed ==> n.closed) && s.stream <= n.stream && s.log <= n.log
  {
    hide Render;
  }

  /** After `close` has returned once, no step of either thread writes or opens anything. */
  lemma ClosedStepIsSilent(s: State, a: Action)
    requires Inv(s) && s.closed && Next(s, a).Some?
    ensures var t := Next(s, a).value;
            && t.closed && t.stream == s.stream && t.log == s.log && t.issued == s.issued
            && t.heartbeat == s.heartbeat && t.live == {}
  {
    hide Render, RenderAll, Records, Broken, STAGES;
    assert s.live == {};
  }

  lemma {:induction false} SilentAfterClose(states: seq<State>, actions: seq<Action>, i: nat, j: nat)
    requires Run(states, actions) && i <= j <= |actions| && states[i].closed
    ensures states[j].closed && states[j].stream == states[i].stream && states[j].log == states[i].log
    ensures states[j].heartbeat == states[i].heartbeat && states[j].issued == states[i].issued
    decreases j - i
  {
    hide Next, Inv;
    if i < j {
      SilentAfterClose(states, actions, i, j - 1);
      RunKeeps(states, actions, j - 1);
      assert Next(states[j - 1], actions[j - 1]) == Some(states[j - 1 + 1]);
      ClosedStepIsSilent(states[j - 1], actions[j - 1]);
    }
  }

  // `close` does not wait for ever.

  /** How many more steps the heartbeat can take once it has been told to stop. */
  function StepsLeft(h: Heartbeat): nat {
    match h
    case Unborn => 0
    case Ended => 0
    case Waiting => 1
    case Beating(e) =>
      match e
      case Outside => 2
      case Failing => 3
      case Written => 3
      case Ready(_) => 4
      case Holding => 5
      case Wanting => 6
  }

  lemma LockHeld(s: State)
    requires LockKept(s) && !Holds(MainAt(s)) && !Holds(HeartbeatAt(s))
    ensures s.lock == None
  {
    match s.lock
    case None =>
    case Some(MainThread) =>
    case Some(HeartbeatThread) =>
  }

  /** While `close` waits for the heartbeat, the heartbeat can always move, and in each of its
      steps other than the one that opens the terminal it comes closer to its end. */
  lemma CloseCanFinish(s: State)
    requires Inv(s) && s.main.Joining? && !s.heartbeat.Ended?
    ensures exists a :: Next(s, a).Some? && HeartbeatMoves(a)
                        && StepsLeft(Next(s, a).value.heartbeat) < StepsLeft(s.heartbeat)
  {
    var a := match s.heartbeat {
      case Waiting => Notice
      case Beating(Outside) => BeatEmitted
      case Beating(Failing) => Beat(Halt)
      case Beating(Written) => Beat(Account)
      case Beating(Ready(_)) => Beat(Try(Fault))
      case Beating(Holding) => Beat(Examine)
      case _ => Beat(Acquire)
    };
    if !Holds(HeartbeatAt(s)) { LockHeld(s); }
    assert Next(s, a).Some? && HeartbeatMoves(a);
  }

  predicate HeartbeatMoves(a: Action) {
    a.Tick? || a.Notice? || a.Beat? || a.BeatEmitted?
  }

  /** No step of the heartbeat leads away from its end while the observer is stopped; the only
      one that stands still opens the terminal, which can happen once. */
  lemma HeartbeatDrains(s: State, a: Action)
    requires Inv(s) && s.stop && HeartbeatMoves(a) && Next(s, a).Some?
    ensures var t := Next(s, a).value;
            || StepsLeft(t.heartbeat) < StepsLeft(s.heartbeat)
            || (StepsLeft(t.heartbeat) == StepsLeft(s.heartbeat) && s.terminal.None? && t.terminal.Some?)
  {
    hide Render, RenderAll, Records, Broken, STAGES;
  }

  // Reading the stream back.

  function Newlines(s: string): nat {
    if s == "" then 0 else (if s[0] == '\n' then 1 else 0) + Newlines(s[1..])
  }

  lemma {:induction false} NewlinesSplit(a: string, b: string)
    ensures Newlines(a + b) == Newlines(a) + Newlines(b)
  {
    if a != "" {
      NewlinesSplit(a[1..], b);
      assert (a + b)[1..] == a[1..] + b;
    } else {
      assert a + b == b;
    }
  }

  lemma {:induction false} NoNewlines(s: string)
    requires '\n' !in s
    ensures Newlines(s) == 0
  {
    if s != "" {
      NoNewlines(s[1..]);
    }
  }

  /** A rendered record without its line break. */
  function Text(r: Record): string {
    "OCR progress: " + (if r.waiting then "waiting " else "") + "phase=" + r.stage
  }

  lemma StageIsOneLine(stage: string)
    requires stage in STAGES
    ensures '\n' !in stage
  {
  }

  lemma PrefixIsOneLine(waiting: bool)
    ensures '\n' !in "OCR progress: " + (if waiting then "waiting " else "") + "phase="
  {
  }

  lemma OneLine(r: Record)
    requires r.stage in STAGES
    ensures Render(r) == Text(r) + "\n" && '\n' !in Text(r) && Newlines(Render(r)) == 1
  {
    hide Newlines, STAGES;
    StageIsOneLine(r.stage);
    PrefixIsOneLine(r.waiting);
    NoNewlines(Text(r));
    NewlinesSplit(Text(r), "\n");
    OneNewline();
  }

  lemma OneNewline()
    ensures Newlines("\n") == 1
  {
    assert "\n"[1..] == "";
  }

  lemma NewlinesOfTail(tail: string)
    requires Broken(tail)
    ensures Newlines(tail) == 0
  {
    hide Render, Newlines;
    var r: Record :| r.stage in STAGES && tail < Render(r);
    OneLine(r);
    assert tail <= Text(r);
    NoNewlines(tail);
  }

  lemma {:induction false} NewlinesOfLog(log: seq<Record>)
    requires forall k | 0 <= k < |log| :: log[k].stage in STAGES
    ensures Newlines(RenderAll(log)) == |log|
  {
    hide Newlines, Render;
    if log != [] {
      var n := |log| - 1;
      NewlinesOfLog(log[..n]);
      OneLine(log[n]);
      NewlinesSplit(RenderAll(log[..n]), Render(log[n]));
    } else {
      NoNewlines("");
    }
  }

  /** The lines a terminal shows are the complete records: never more than 120. */
  lemma LinesAreRecords(states: seq<State>, actions: seq<Action>, i: nat)
    requires Run(states, actions) && i <= |actions|
    ensures Newlines(states[i].stream) == |states[i].log| <= MAX_PROGRESS_MESSAGES
  {
    hide Next, Initial, Broken, Render, RenderAll, Newlines;
    RunKeeps(states, actions, i);
    var s := states[i];
    NewlinesOfLog(Records(s.log));
    NewlinesOfTail(s.tail);
    NewlinesSplit(RenderAll(Records(s.log)), s.tail);
  }
}
