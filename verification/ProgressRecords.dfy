/** What the observer writes, told from the actions of a run alone: which phase each line names,
    and that the stream holds nothing else. */
module ProgressRecords {
  import opened Json
  import opened Progress

  const PHASES := {
    "configuration", "identity", "evidence", "mcp-preflight", "preview", "subprocess",
    "result-validation", "mcp-use", "dlp", "cleanup", "reporting"
  }

  /** The phase asked for by the last call of `start` or `phase` among the first `i` actions. */
  function Called(actions: seq<Action>, i: nat): string
    requires i <= |actions|
  {
    if i == 0 then "configuration"
    else match actions[i - 1]
      case CallStart => "configuration"
      case CallPhase(name) => name
      case _ => Called(actions, i - 1)
  }

  /** The phase that the observer shows: the one asked for when a stage was last set. */
  function Shown(actions: seq<Action>, i: nat): string
    requires i <= |actions|
  {
    if i == 0 then "configuration"
    else if actions[i - 1].SetStage? then Called(actions, i - 1)
    else Shown(actions, i - 1)
  }

  function MainLine(phase: string): string { "OCR progress: phase=" + phase + "\n" }

  function BeatLine(phase: string): string { "OCR progress: waiting phase=" + phase + "\n" }

  /** What an attempt to write a line adds to the stream. */
  function Sent(line: string, step: Emit): string {
    match step
    case Try(Complete(_)) => line
    case Try(Short(_, length)) => if length < |line| then line[..length] else line
    case _ => ""
  }

  /** The text that the first `i` actions send. */
  function Said(actions: seq<Action>, i: nat): string
    requires i <= |actions|
  {
    if i == 0 then ""
    else
      Said(actions, i - 1) +
      match actions[i - 1]
      case MainEmit(step) => Sent(MainLine(Called(actions, i - 1)), step)
      case Beat(step) => Sent(BeatLine(Shown(actions, i - 1)), step)
      case _ => ""
  }

  /** What the state knows of the actions before it. */
  predicate Follows(s: State, actions: seq<Action>, i: nat)
    requires i <= |actions|
  {
    && s.stage == Shown(actions, i)
    && (s.main.Setting? ==> s.main.stage == Called(actions, i) && s.main.stage in PHASES)
    && (s.main.Emitting? ==> s.stage == Called(actions, i))
  }

  lemma StepFollows(s: State, actions: seq<Action>, i: nat)
    requires i < |actions| && Follows(s, actions, i) && Next(s, actions[i]).Some?
    ensures Follows(Next(s, actions[i]).value, actions, i + 1)
  {
    hide EmitStep;
    match actions[i]
    case MainEmit(step) => EmitLeaves(s, MainThread, s.main.emission, step);
    case Beat(step) => EmitLeaves(s, HeartbeatThread, s.heartbeat.beat, step);
    case _ =>
  }

  lemma {:induction false} RunFollows(states: seq<State>, actions: seq<Action>, i: nat)
    requires Run(states, actions) && i <= |actions|
    ensures Follows(states[i], actions, i)
  {
    hide Next;
    if i > 0 {
      RunFollows(states, actions, i - 1);
      assert Next(states[i - 1], actions[i - 1]) == Some(states[i - 1 + 1]);
      StepFollows(states[i - 1], actions, i - 1);
    }
  }

  /** One step sends what its action says, where the line names the observer's stage. */
  lemma StepSends(s: State, a: Action)
    requires Inv(s) && Next(s, a).Some?
    ensures Next(s, a).value.stream == s.stream +
            match a
            case MainEmit(step) => Sent(MainLine(s.stage), step)
            case Beat(step) => Sent(BeatLine(s.stage), step)
            case _ => ""
  {
    hide EmitStep, LockKept, Counted, Honest, WellWritten, Owned, Lifecycle, Clean, STAGES, Sent, MainLine, BeatLine;
    match a
    case MainEmit(step) => EmitSends(s, MainThread, s.main.emission, step);
    case Beat(step) => EmitSends(s, HeartbeatThread, s.heartbeat.beat, step);
    case _ => assert s.stream + "" == s.stream;
  }

  lemma EmitSends(s: State, t: Thread, e: Emission, step: Emit)
    requires Prepared(s, t, e) && EmitStep(s, t, e, step).Some?
    ensures EmitStep(s, t, e, step).value.0.stream ==
            s.stream + Sent(if t.MainThread? then MainLine(s.stage) else BeatLine(s.stage), step)
  {
    hide Render, MainLine, BeatLine;
    RendersLine(Record(t.HeartbeatThread?, s.stage));
    assert s.stream + "" == s.stream;
  }

  lemma RendersLine(r: Record)
    ensures Render(r) == if r.waiting then BeatLine(r.stage) else MainLine(r.stage)
  {
  }

  /** In every run the stream is exactly what the actions say: a main line names the phase of the
      call it belongs to, a heartbeat line the phase set last, and no other action writes. */
  lemma {:induction false} StreamIsSaid(states: seq<State>, actions: seq<Action>, i: nat)
    requires Run(states, actions) && i <= |actions|
    ensures states[i].stream == Said(actions, i)
  {
    hide Next, Inv, Sent, MainLine, BeatLine, Initial;
    if i == 0 {
      StartsSilent(states, actions);
    } else {
      var s, a := states[i - 1], actions[i - 1];
      StreamIsSaid(states, actions, i - 1);
      RunKeeps(states, actions, i - 1);
      RunFollows(states, actions, i - 1);
      assert Next(s, a) == Some(states[i - 1 + 1]);
      StepSends(s, a);
      if a.MainEmit? { EmitsFromMain(s, a); }
    }
  }

  lemma StartsSilent(states: seq<State>, actions: seq<Action>)
    requires Run(states, actions)
    ensures states[0].stream == ""
  {
  }

  lemma EmitsFromMain(s: State, a: Action)
    requires a.MainEmit? && Next(s, a).Some?
    ensures s.main.Emitting?
  {
  }

  /** The stop flag is set by exactly these steps: the end of a failed emission, the account of the
      120th record, a failed start of the thread, and close. */
  lemma StopsExactly(s: State, a: Action)
    requires Next(s, a).Some?
    ensures Next(s, a).value.stop <==>
            || s.stop || a.SetStop? || a == Spawn(false)
            || ((a.MainEmit? || a.Beat?) && (a.step == Halt || (a.step == Account && s.messages >= 119)))
  {
    hide Render;
    match a
    case MainEmit(step) => EmitStops(s, MainThread, s.main.emission, step);
    case Beat(step) => EmitStops(s, HeartbeatThread, s.heartbeat.beat, step);
    case _ =>
  }

  lemma EmitStops(s: State, t: Thread, e: Emission, step: Emit)
    requires EmitStep(s, t, e, step).Some?
    ensures EmitStep(s, t, e, step).value.0.stop <==>
            s.stop || step == Halt || (step == Account && s.messages >= 119)
    ensures EmitStep(s, t, e, step).value.0.messages == s.messages + (if step == Account then 1 else 0)
  {
    hide Render;
  }

  /** Only phases of the toolkit are named. */
  lemma PhasesAreKnown(states: seq<State>, actions: seq<Action>, i: nat)
    requires Run(states, actions) && i <= |actions|
    ensures Shown(actions, i) in PHASES
  {
    hide Next, LockKept, Counted, WellWritten, Owned, Lifecycle, Prepared, Clean, Shown;
    RunFollows(states, actions, i);
    RunKeeps(states, actions, i);
  }
}
