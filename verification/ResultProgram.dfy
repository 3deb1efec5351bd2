/** The order of the steps of one replacement: it takes the steps of its program in order whoever else
    is at work, stops at the first failure, and is never stuck before that. */
module ResultProgram {
  import opened Json
  import opened ResultFile

  predicate Own(a: Action) { !Foreign(a) && !a.FlushData? && !a.FlushDirectory? }

  /** After its step `a` the process takes step `b` next, unless it is killed. */
  predicate Then(a: Action, b: Action) {
    match a
    case Open(succeeds) => succeeds && b.CheckSize?
    case CheckSize => b.Read?
    case Read(length) => if length > 0 then b.Read? else b.Decode?
    case Decode => b.Create?
    case Create(_, succeeds) => succeeds && (b.Create? || b.Write? || b.Interrupted?)
    case Write(count) => if count > 0 then b.Write? || b.Interrupted? || b.Sync? else b.Sync? || b.Clean?
    case Interrupted => b.Write? || b.Interrupted?
    case Sync(succeeds) => if succeeds then b.Check? else b.Clean?
    case Check => b.Rename? || b.Clean?
    case Rename(succeeds) => (succeeds && b.SyncDirectory?) || b.Clean?
    case _ => false
  }

  /** The step at which the process stands. */
  predicate StandsBefore(p: Point, b: Action) {
    match p
    case Starting => b.Open?
    case Opened => b.CheckSize?
    case Reading => b.Read?
    case Decoding => b.Decode?
    case Creating(_) => b.Create?
    case Writing => b.Write? || b.Interrupted?
    case Syncing => b.Sync?
    case Checking => b.Check?
    case Renaming => b.Rename?
    case SyncingDirectory => b.SyncDirectory?
    case Cleaning => b.Clean?
    case _ => false
  }

  lemma StepOrder(s: State, a: Action, b: Action, transform: Transform, limit: nat)
    requires Own(a) && Own(b) && !b.Crash? && Next(s, a, transform, limit).Some?
    ensures !a.Crash? ==> StandsBefore(s.at, a)
    ensures StandsBefore(Next(s, a, transform, limit).value.at, b) ==> Then(a, b)
  {
    hide Private;
  }

  lemma OthersLeaveIt(s: State, a: Action, transform: Transform, limit: nat)
    requires !Own(a) && Next(s, a, transform, limit).Some?
    ensures Next(s, a, transform, limit).value.at == s.at
  {
    hide Disturb;
  }

  lemma {:induction false} Waits(states: seq<State>, actions: seq<Action>, transform: Transform, limit: nat,
                                 original: Bytes, i: nat, j: nat)
    requires Run(states, actions, transform, limit, original)
    requires i <= j <= |actions| && forall k | i <= k < j :: !Own(actions[k])
    ensures states[j].at == states[i].at
    decreases j
  {
    hide Next;
    if i < j {
      Waits(states, actions, transform, limit, original, i, j - 1);
      assert Next(states[j - 1], actions[j - 1], transform, limit) == Some(states[j - 1 + 1]);
      OthersLeaveIt(states[j - 1], actions[j - 1], transform, limit);
    }
  }

  /** In every run, whatever the kernel and others do in between, two successive steps of the process
      follow its program; nothing follows a failure or a crash. */
  lemma FollowsProgram(states: seq<State>, actions: seq<Action>, transform: Transform, limit: nat,
                       original: Bytes, i: nat, j: nat)
    requires Run(states, actions, transform, limit, original) && i < j < |actions|
    requires Own(actions[i]) && Own(actions[j]) && !actions[j].Crash?
    requires forall k | i < k < j :: !Own(actions[k])
    ensures Then(actions[i], actions[j])
  {
    hide Next, Then, StandsBefore;
    assert Next(states[i], actions[i], transform, limit) == Some(states[i + 1]);
    StepOrder(states[i], actions[i], actions[j], transform, limit);
    Waits(states, actions, transform, limit, original, i + 1, j);
    assert Next(states[j], actions[j], transform, limit) == Some(states[j + 1]);
    StepOrder(states[j], actions[j], actions[j], transform, limit);
  }

  /** And the first one opens the result. */
  lemma StartsByOpening(states: seq<State>, actions: seq<Action>, transform: Transform, limit: nat,
                        original: Bytes, j: nat)
    requires Run(states, actions, transform, limit, original) && j < |actions|
    requires Own(actions[j]) && !actions[j].Crash? && forall k | 0 <= k < j :: !Own(actions[k])
    ensures actions[j].Open?
  {
    hide Next;
    Waits(states, actions, transform, limit, original, 0, j);
    assert Next(states[j], actions[j], transform, limit) == Some(states[j + 1]);
    StepOrder(states[j], actions[j], actions[j], transform, limit);
  }

  // Nothing is stuck.

  /** The process can take its next step in every state of every run until it has finished, failed
      or been killed. */
  lemma CanGoOn(s: State, transform: Transform, limit: nat) returns (a: Action)
    requires Core(s, transform, limit) && !s.at.Finished? && !s.at.Failed? && !s.at.Dead?
    requires s.at.Opened? || s.at.Reading? ==> s.inode in s.disk.files
    ensures Own(a) && !a.Crash? && Next(s, a, transform, limit).Some?
  {
    hide Private, Sane, Produced;
    match s.at
    case Starting => a := Open(true);
    case Opened => a := CheckSize;
    case Reading =>
      a := Read(NextChunk(s, limit));
      CanRead(s, transform, limit);
    case Decoding => a := Decode;
    case Creating(_) => a := Create("", true);
    case Writing => a := Write(|s.encoded| - s.written);
    case Syncing => a := Sync(true);
    case Checking => a := Check;
    case Renaming => a := Rename(true);
    case SyncingDirectory => a := SyncDirectory(true);
    case _ => a := Clean;
  }

  lemma CanRead(s: State, transform: Transform, limit: nat)
    requires s.at.Reading? && s.inode in s.disk.files
    ensures Next(s, Read(NextChunk(s, limit)), transform, limit).Some?
  {
  }

  /** The most a read may return: the rest of the file, up to a chunk and the allowance. */
  function NextChunk(s: State, limit: nat): nat
    requires s.inode in s.disk.files
  {
    var left := |s.disk.files[s.inode].data| - |s.got|;
    var allowed := limit + 1 - |s.got|;
    if left <= 0 || allowed <= 0 then 0
    else if left <= 65_536 && left <= allowed then left
    else if 65_536 <= allowed then 65_536 else allowed
  }

  // Where the process goes on and where it gives up.

  /** The result name is bound to this regular file, and no other name is. */
  predicate SoleResult(d: Disk, f: nat) {
    && Result in d.names && d.names[Result] == f && f in d.files && d.files[f].regular
    && forall n | n in d.names && d.names[n] == f :: n == Result
  }

  /** Opening succeeds exactly for a sole regular result; the check before the rename asks the same of
      the file that was opened. */
  lemma OpenedAndChecked(s: State, transform: Transform, limit: nat)
    ensures s.at.Starting? ==>
              var t := Next(s, Open(true), transform, limit).value;
              && (t.at.Opened? <==> exists f :: SoleResult(s.disk, f)) && (t.at.Opened? || t.at.Failed?)
              && (t.at.Opened? ==> SoleResult(s.disk, t.inode))
    ensures s.at.Checking? ==>
              var t := Next(s, Check, transform, limit).value;
              (t.at.Renaming? <==> SoleResult(s.disk, s.inode)) && (t.at.Renaming? || t.at.Cleaning?)
  {
    if s.at.Starting? && Next(s, Open(true), transform, limit).value.at.Opened? {
      assert SoleResult(s.disk, Next(s, Open(true), transform, limit).value.inode);
    }
  }

  /** No read asks for more than a chunk of 65,536 bytes. */
  lemma ReadsAreBounded(s: State, count: nat, transform: Transform, limit: nat)
    requires Next(s, Read(count), transform, limit).Some?
    ensures s.at.Reading? && (count <= 65_536 || |s.got| > limit)
  {
  }

  /** A result over the limit is not read, and a transformation that fails or is over the limit is
      not written; the 129th name is not tried. */
  lemma LimitsAreKept(s: State, transform: Transform, limit: nat, token: string)
    ensures s.at.Opened? && s.inode in s.disk.files ==>
              var t := Next(s, CheckSize, transform, limit).value;
              (t.at.Reading? <==> |s.disk.files[s.inode].data| <= limit) && (t.at.Reading? || t.at.Failed?)
    ensures s.at.Decoding? ==>
              var t := Next(s, Decode, transform, limit).value;
              && (t.at == Creating(0) <==> transform(s.got).Some? && |transform(s.got).value| <= limit)
              && (t.at == Creating(0) || t.at.Failed?)
    ensures s.at.Creating? ==>
              var t := Next(s, Create(token, true), transform, limit).value;
              if s.at.attempts >= 128 then t.at.Failed?
              else if Sibling(token) in s.disk.names then t.at == Creating(s.at.attempts + 1)
              else t.at.Writing?
  {
  }

  /** The kernel may write back any part of a file at any time. */
  lemma AnyFlushIsPossible(s: State, file: nat, upTo: nat, transform: Transform, limit: nat)
    requires file in s.disk.files
    ensures Next(s, FlushData(file, upTo), transform, limit).Some? <==>
            s.disk.files[file].synced <= upTo && upTo <= |s.disk.files[file].data|
    ensures Next(s, FlushDirectory, transform, limit) == Some(s.(disk := s.disk.(kept := Bound(s.disk))))
    ensures Next(s, Crash, transform, limit) == Some(s.(at := Dead))
  {
  }

  /** Others may bind a name to any file but the private temporary, the result name included, and may
      overwrite any of these files. */
  lemma OthersMay(s: State, token: string, file: nat, data: Bytes, transform: Transform, limit: nat)
    requires file in s.disk.files && s.temp != Some(file)
    ensures var t := Next(s, Swap(data), transform, limit);
            t.Some? && Bound(t.value.disk) == Some(s.disk.next)
            && t.value.disk.files[s.disk.next] == File(data, 0, true)
    ensures var t := Next(s, Overwrite(file, data), transform, limit);
            t.Some? && file in t.value.disk.files && t.value.disk.files[file].data == data
    ensures var t := Next(s, Remove, transform, limit); t.Some? && Bound(t.value.disk) == None
    ensures Sibling(token) !in s.disk.names ==>
              var t := Next(s, Link(Sibling(token), file), transform, limit);
              t.Some? && t.value.disk.names == s.disk.names[Sibling(token) := file]
  {
    hide Next;
    OthersStep(s, Swap(data), transform, limit);
    OthersStep(s, Overwrite(file, data), transform, limit);
    OthersStep(s, Remove, transform, limit);
    OthersStep(s, Link(Sibling(token), file), transform, limit);
  }

  /** A step of others is their change of the directory and nothing else. */
  lemma OthersStep(s: State, a: Action, transform: Transform, limit: nat)
    requires Foreign(a)
    ensures Next(s, a, transform, limit) ==
            match Disturb(s, a)
            case None => None
            case Some(d) => Some(s.(disk := d, touched := true))
  {
    hide Disturb;
  }

  // How it ends.

  /** Without others at work: what the process leaves behind at each point. A replacement is durable
      when it has finished, and no temporary name outlives the process's own end. */
  predicate Tidy(s: State) {
    && (s.at.SyncingDirectory? || s.at.Finished? ==> s.temp.Some? && Bound(s.disk) == s.temp)
    && (s.at.Finished? ==> s.disk.kept == s.temp)
    && (s.at.SyncingDirectory? || s.at.Finished? || s.at.Failed? ==> s.temp.Some? ==> s.token !in s.disk.names)
  }

  lemma StepIsTidy(s: State, a: Action, transform: Transform, limit: nat)
    requires Core(s, transform, limit) && Tidy(s) && !Foreign(a) && Next(s, a, transform, limit).Some?
    ensures Tidy(Next(s, a, transform, limit).value)
  {
    hide Private, Produced, Sane;
  }

  /** In every run without others a finished replacement is bound to the result name and stays so after
      a power loss, and nothing else of the process is left in the directory, also after a failure. */
  lemma {:induction false} EndsTidy(states: seq<State>, actions: seq<Action>, transform: Transform, limit: nat,
                                    original: Bytes, i: nat)
    requires Run(states, actions, transform, limit, original) && i <= |actions| && Sane(states[0].disk)
    requires forall k | 0 <= k < i :: !Foreign(actions[k])
    ensures Tidy(states[i])
  {
    hide Next, Core, Tidy, Initial;
    if i == 0 {
      StartsTidy(states[0], original);
    } else {
      EndsTidy(states, actions, transform, limit, original, i - 1);
      RunKeeps(states, actions, transform, limit, original, i - 1);
      assert Next(states[i - 1], actions[i - 1], transform, limit) == Some(states[i - 1 + 1]);
      StepIsTidy(states[i - 1], actions[i - 1], transform, limit);
    }
  }

  lemma StartsTidy(s: State, original: Bytes)
    requires Initial(s, original)
    ensures Tidy(s)
  {
  }
}
