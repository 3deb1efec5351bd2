/** Atomic replacement of the result file, step by step, with short writes, crashes, write-back
    by the kernel at any moment, and another process at work in the same directory. */
module ResultFile {
  import opened Json
  import opened Collections

  type Bytes = seq<bv8>

  const MAX_NAME_ATTEMPTS := 128
  const CHUNK := 65536

  /** The result, or one of its hidden private siblings. */
  datatype Name = Result | Sibling(token: string)

  /** `synced` bytes of the data are known to survive a power loss. */
  datatype File = File(data: Bytes, synced: nat, regular: bool)

  /** `kept` is the file the result name is known to be bound to after a power loss. */
  datatype Disk = Disk(names: map<Name, nat>, kept: Option<nat>, files: map<nat, File>, next: nat)

  datatype Point =
    | Starting | Opened | Reading | Decoding | Creating(attempts: nat) | Writing | Syncing | Checking
    | Renaming | SyncingDirectory | Cleaning | Finished | Failed | Dead

  /** What the transformer makes of the bytes it is given: the encoded new result, if any. */
  type Transform = Bytes -> Option<Bytes>

  datatype State = State(
    disk: Disk, at: Point,
    inode: nat, got: Bytes, encoded: Bytes, temp: Option<nat>, token: Name, written: nat,
    // The replaced file, and whether anyone else has touched the directory.
    replaced: Option<nat>, touched: bool)

  datatype Action =
    | Open(succeeds: bool)
    | CheckSize
    | Read(length: nat)
    | Decode
    | Create(token: string, succeeds: bool)
    | Write(count: int)
    | Interrupted
    | Sync(succeeds: bool)
    | Check
    | Rename(succeeds: bool)
    | SyncDirectory(succeeds: bool)
    | Clean
    | Crash
    // The kernel.
    | FlushData(file: nat, upTo: nat)
    | FlushDirectory
    // Another process.
    | Swap(data: Bytes)
    | Overwrite(file: nat, data: Bytes)
    | Remove
    | Link(name: Name, file: nat)

  predicate Foreign(a: Action) { a.Swap? || a.Overwrite? || a.Remove? || a.Link? }

  function Bound(d: Disk): Option<nat> {
    if Result in d.names then Some(d.names[Result]) else None
  }

  /** A regular file with no other name. */
  predicate Private(d: Disk, f: nat) {
    && f in d.files && d.files[f].regular
    && (forall m, n | m in d.names && n in d.names && d.names[m] == f && d.names[n] == f :: m == n)
  }

  function Next(s: State, a: Action, transform: Transform, limit: nat): Option<State> {
    var d := s.disk;
    match a
    case Open(succeeds) =>
      if !s.at.Starting? then None
      else if !succeeds || Bound(d).None? || !Private(d, Bound(d).value) then Some(s.(at := Failed))
      else Some(s.(at := Opened, inode := Bound(d).value))
    case CheckSize =>
      if !s.at.Opened? || s.inode !in d.files then None
      else if |d.files[s.inode].data| > limit then Some(s.(at := Failed))
      else Some(s.(at := Reading, got := []))
    case Read(length) =>
      if !s.at.Reading? || s.inode !in d.files then None
      else ReadChunk(s, d.files[s.inode].data, length, limit)
    case Decode =>
      if !s.at.Decoding? then None
      else
        var encoded := transform(s.got);
        if encoded.None? || |encoded.value| > limit then Some(s.(at := Failed))
        else Some(s.(at := Creating(0), encoded := encoded.value))
    case Create(token, succeeds) =>
      if !s.at.Creating? then None
      else if s.at.attempts >= MAX_NAME_ATTEMPTS || !succeeds then Some(s.(at := Failed))
      else if Sibling(token) in d.names then Some(s.(at := Creating(s.at.attempts + 1)))
      else
        var made := d.(names := d.names[Sibling(token) := d.next], files := d.files[d.next := File([], 0, true)],
                       next := d.next + 1);
        Some(s.(disk := made, at := Writing, temp := Some(d.next), token := Sibling(token), written := 0))
    case Write(count) =>
      if !s.at.Writing? || s.temp.None? || s.temp.value !in d.files || s.written > |s.encoded| then None
      else if s.written == |s.encoded| then Some(s.(at := Syncing))
      else if count <= 0 then Some(s.(at := Cleaning))
      else if count > |s.encoded| - s.written then None
      else
        var f := d.files[s.temp.value];
        var g := f.(data := f.data + s.encoded[s.written..s.written + count]);
        Some(s.(disk := d.(files := d.files[s.temp.value := g]), written := s.written + count))
    case Interrupted =>
      if s.at.Writing? then Some(s) else None
    case Sync(succeeds) =>
      if !s.at.Syncing? || s.temp.None? || s.temp.value !in d.files then None
      else if !succeeds then Some(s.(at := Cleaning))
      else
        var f := d.files[s.temp.value];
        Some(s.(disk := d.(files := d.files[s.temp.value := f.(synced := |f.data|)]), at := Checking))
    case Check =>
      if !s.at.Checking? then None
      else if Bound(d) == Some(s.inode) && Private(d, s.inode) then Some(s.(at := Renaming))
      else Some(s.(at := Cleaning))
    case Rename(succeeds) =>
      if !s.at.Renaming? || s.temp.None? then None
      else if !succeeds || s.token !in d.names then Some(s.(at := Cleaning))
      else
        Some(s.(disk := d.(names := (d.names - {s.token})[Result := d.names[s.token]]),
                at := SyncingDirectory, replaced := Bound(d)))
    case SyncDirectory(succeeds) =>
      if !s.at.SyncingDirectory? then None
      else if !succeeds then Some(s.(at := Failed))
      else Some(s.(disk := d.(kept := Bound(d)), at := Finished))
    case Clean =>
      if s.at.Cleaning? then Some(s.(disk := d.(names := d.names - {s.token}), at := Failed)) else None
    case Crash => Some(s.(at := Dead))
    case FlushData(file, upTo) =>
      if file in d.files && d.files[file].synced <= upTo <= |d.files[file].data|
      then Some(s.(disk := d.(files := d.files[file := d.files[file].(synced := upTo)]))) else None
    case FlushDirectory => Some(s.(disk := d.(kept := Bound(d))))
    case _ =>
      var after := Disturb(s, a);
      if after.None? then None else Some(s.(disk := after.value, touched := true))
  }

  /** `os.read` returns up to a chunk, fewer bytes or none; an empty read or a spent allowance ends the loop. */
  function ReadChunk(s: State, data: Bytes, count: nat, limit: nat): Option<State>
    requires s.at.Reading?
  {
    if |s.got| > limit then Some(s.(at := Failed))
    else
      var allowed := Min(CHUNK, limit + 1 - |s.got|);
      var left := if |s.got| < |data| then |data| - |s.got| else 0;
      if count > allowed || count > left || (count == 0 && left > 0) then None
      else if count == 0 then Some(s.(at := Decoding))
      else Some(s.(got := s.got + data[|s.got|..|s.got| + count]))
  }

  /** Another process may do anything to the result name and to every file except the private temporary. */
  function Disturb(s: State, a: Action): Option<Disk> {
    var d := s.disk;
    match a
    case Swap(data) =>
      Some(d.(names := d.names[Result := d.next], files := d.files[d.next := File(data, 0, true)], next := d.next + 1))
    case Overwrite(file, data) =>
      if file in d.files && s.temp != Some(file)
      then Some(d.(files := d.files[file := d.files[file].(data := data, synced := 0)])) else None
    case Remove => Some(d.(names := d.names - {Result}))
    case Link(name, file) =>
      if file in d.files && s.temp != Some(file) && name !in d.names
        then Some(d.(names := d.names[name := file])) else None
    case _ => None
  }

  /** Before the first step: a private, durable result with these bytes. */
  predicate Initial(s: State, original: Bytes) {
    && s.at.Starting? && s.temp.None? && s.replaced.None? && !s.touched
    && (forall n | n in s.disk.names :: s.disk.names[n] in s.disk.files)
    && (forall f | f in s.disk.files :: f < s.disk.next)
    && Bound(s.disk).Some? && s.disk.kept == Bound(s.disk)
    && s.disk.files[s.disk.names[Result]] == File(original, |original|, true)
  }

  predicate Run(states: seq<State>, actions: seq<Action>, transform: Transform, limit: nat, original: Bytes) {
    && |states| == |actions| + 1 && Initial(states[0], original)
    && forall i | 0 <= i < |actions| :: Next(states[i], actions[i], transform, limit) == Some(states[i + 1])
  }

  // The invariant.

  predicate Sane(d: Disk) {
    && (forall n | n in d.names :: d.names[n] in d.files)
    && (forall f | f in d.files :: f < d.next && d.files[f].synced <= |d.files[f].data|)
    && (d.kept.Some? ==> d.kept.value in d.files)
  }

  /** The temporary holds all of the encoding, durably. */
  predicate Complete(s: State) {
    s.temp.Some? && s.temp.value in s.disk.files && s.disk.files[s.temp.value] == File(s.encoded, |s.encoded|, true)
  }

  predicate Before(p: Point) {
    p.Starting? || p.Opened? || p.Reading? || p.Decoding? || p.Creating?
  }

  /** While the temporary is private, no path leads from the result name to it. */
  predicate Hidden(s: State) {
    && s.temp.Some? && s.temp.value in s.disk.files
    && Bound(s.disk) != s.temp && s.disk.kept != s.temp
    && s.token.Sibling?
    && s.token in s.disk.names && s.disk.names[s.token] == s.temp.value
  }

  predicate Produced(got: Bytes, encoded: Bytes, transform: Transform, limit: nat) {
    transform(got) == Some(encoded) && |encoded| <= limit
  }

  predicate Placed(s: State) {
    && (Before(s.at) ==> s.temp.None?)
    && (s.at.Writing? || s.at.Syncing? ==>
          && Hidden(s) && s.written <= |s.encoded| && s.disk.files[s.temp.value].data == s.encoded[..s.written]
          && s.disk.files[s.temp.value].regular)
    && (s.at.Syncing? ==> s.written == |s.encoded|)
    && (s.at.Checking? || s.at.Renaming? ==> Hidden(s) && Complete(s))
    && (s.at.SyncingDirectory? || s.at.Finished? ==> Complete(s))
    && (s.at.Cleaning? ==> Hidden(s))
    && (s.temp.Some? ==> s.temp.value in s.disk.files)
    && (s.temp.Some? && (Bound(s.disk) == s.temp || s.disk.kept == s.temp) ==> Complete(s))
  }

  predicate Undisturbed(s: State, original: Bytes, transform: Transform, limit: nat) {
    && Bound(s.disk).Some? && IsOneOf(s, Bound(s.disk).value, original)
    && s.disk.kept.Some? && IsOneOf(s, s.disk.kept.value, original)
    && (s.at.Opened? || s.at.Reading? || s.at.Decoding? ==>
          s.inode in s.disk.files && s.disk.files[s.inode].data == original)
    && (s.at.Reading? ==> |original| <= limit && s.got <= original)
    && (s.at.Decoding? ==> s.got == original)
    && (s.temp.Some? || s.at.Creating? ==> s.got == original)
  }

  /** The file is the original one or the complete temporary. */
  predicate IsOneOf(s: State, f: nat, original: Bytes) {
    f in s.disk.files
    && (s.disk.files[f] == File(original, |original|, true) || (s.temp == Some(f) && Complete(s)))
  }

  /** What holds whoever else is at work. */
  predicate Core(s: State, transform: Transform, limit: nat) {
    && Sane(s.disk) && Placed(s)
    && (s.temp.Some? || s.at.Creating? ==> Produced(s.got, s.encoded, transform, limit))
  }

  predicate Inv(s: State, transform: Transform, limit: nat, original: Bytes) {
    && Core(s, transform, limit)
    && (!s.touched ==> Undisturbed(s, original, transform, limit))
  }

  lemma OpenKeeps(s: State, a: Action, transform: Transform, limit: nat, original: Bytes)
    requires Inv(s, transform, limit, original) && Next(s, a, transform, limit).Some?
    requires a.Open?
    ensures Inv(Next(s, a, transform, limit).value, transform, limit, original)
  {
    hide Produced;
  }

  lemma SizeKeeps(s: State, a: Action, transform: Transform, limit: nat, original: Bytes)
    requires Inv(s, transform, limit, original) && Next(s, a, transform, limit).Some?
    requires a.CheckSize?
    ensures Inv(Next(s, a, transform, limit).value, transform, limit, original)
  {
    hide Produced;
  }

  lemma StopKeeps(s: State, a: Action, transform: Transform, limit: nat, original: Bytes)
    requires Inv(s, transform, limit, original) && Next(s, a, transform, limit).Some?
    requires a.Crash? || a.Interrupted?
    ensures Inv(Next(s, a, transform, limit).value, transform, limit, original)
  {
    hide Produced;
  }

  lemma ReadKeeps(s: State, a: Action, transform: Transform, limit: nat, original: Bytes)
    requires Inv(s, transform, limit, original) && Next(s, a, transform, limit).Some?
    requires a.Read?
    ensures Inv(Next(s, a, transform, limit).value, transform, limit, original)
  {
    hide Produced;
  }

  lemma DecodeKeeps(s: State, a: Action, transform: Transform, limit: nat, original: Bytes)
    requires Inv(s, transform, limit, original) && Next(s, a, transform, limit).Some?
    requires a.Decode?
    ensures Inv(Next(s, a, transform, limit).value, transform, limit, original)
  {
  }

  lemma CheckKeeps(s: State, a: Action, transform: Transform, limit: nat, original: Bytes)
    requires Inv(s, transform, limit, original) && Next(s, a, transform, limit).Some?
    requires a.Check?
    ensures Inv(Next(s, a, transform, limit).value, transform, limit, original)
  {
    hide Produced;
  }

  lemma CreateKeepsCore(s: State, a: Action, transform: Transform, limit: nat)
    requires Core(s, transform, limit) && Next(s, a, transform, limit).Some?
    requires a.Create?
    ensures Core(Next(s, a, transform, limit).value, transform, limit)
  {
    hide Produced, Sane, Placed;
    CreateKeepsSane(s, a, transform, limit);
    CreateKeepsPlaced(s, a, transform, limit);
  }

  lemma CreateKeepsSane(s: State, a: Action, transform: Transform, limit: nat)
    requires Sane(s.disk) && a.Create? && Next(s, a, transform, limit).Some?
    ensures Sane(Next(s, a, transform, limit).value.disk)
  {
  }

  lemma CreateKeepsPlaced(s: State, a: Action, transform: Transform, limit: nat)
    requires Sane(s.disk) && Placed(s) && a.Create? && Next(s, a, transform, limit).Some?
    ensures Placed(Next(s, a, transform, limit).value)
  {
  }

  lemma CreateKeeps(s: State, a: Action, transform: Transform, limit: nat, original: Bytes)
    requires Inv(s, transform, limit, original) && Next(s, a, transform, limit).Some?
    requires a.Create?
    ensures Inv(Next(s, a, transform, limit).value, transform, limit, original)
  {
    hide Sane, Produced;
    CreateKeepsCore(s, a, transform, limit);
  }

  lemma WriteKeepsCore(s: State, a: Action, transform: Transform, limit: nat)
    requires Core(s, transform, limit) && Next(s, a, transform, limit).Some?
    requires a.Write?
    ensures Core(Next(s, a, transform, limit).value, transform, limit)
  {
    hide Produced;
    if 0 < a.count <= |s.encoded| - s.written {
      assert s.encoded[..s.written + a.count] == s.encoded[..s.written] + s.encoded[s.written..s.written + a.count];
    }
  }

  lemma WriteKeeps(s: State, a: Action, transform: Transform, limit: nat, original: Bytes)
    requires Inv(s, transform, limit, original) && Next(s, a, transform, limit).Some?
    requires a.Write?
    ensures Inv(Next(s, a, transform, limit).value, transform, limit, original)
  {
    hide Sane, Produced;
    WriteKeepsCore(s, a, transform, limit);
  }

  lemma SyncKeepsCore(s: State, a: Action, transform: Transform, limit: nat)
    requires Core(s, transform, limit) && Next(s, a, transform, limit).Some?
    requires a.Sync?
    ensures Core(Next(s, a, transform, limit).value, transform, limit)
  {
    hide Produced;
  }

  lemma SyncKeeps(s: State, a: Action, transform: Transform, limit: nat, original: Bytes)
    requires Inv(s, transform, limit, original) && Next(s, a, transform, limit).Some?
    requires a.Sync?
    ensures Inv(Next(s, a, transform, limit).value, transform, limit, original)
  {
    hide Core;
    SyncKeepsCore(s, a, transform, limit);
  }

  lemma RenameKeeps(s: State, a: Action, transform: Transform, limit: nat, original: Bytes)
    requires Inv(s, transform, limit, original) && Next(s, a, transform, limit).Some?
    requires a.Rename?
    ensures Inv(Next(s, a, transform, limit).value, transform, limit, original)
  {
    hide Produced;
  }

  lemma SyncDirectoryKeeps(s: State, a: Action, transform: Transform, limit: nat, original: Bytes)
    requires Inv(s, transform, limit, original) && Next(s, a, transform, limit).Some?
    requires a.SyncDirectory?
    ensures Inv(Next(s, a, transform, limit).value, transform, limit, original)
  {
    hide Produced;
  }

  lemma CleanKeeps(s: State, a: Action, transform: Transform, limit: nat, original: Bytes)
    requires Inv(s, transform, limit, original) && Next(s, a, transform, limit).Some?
    requires a.Clean?
    ensures Inv(Next(s, a, transform, limit).value, transform, limit, original)
  {
  }

  lemma FlushDataKeepsCore(s: State, a: Action, transform: Transform, limit: nat)
    requires Core(s, transform, limit) && Next(s, a, transform, limit).Some?
    requires a.FlushData?
    ensures Core(Next(s, a, transform, limit).value, transform, limit)
  {
    hide Produced;
  }

  lemma FlushDataKeeps(s: State, a: Action, transform: Transform, limit: nat, original: Bytes)
    requires Inv(s, transform, limit, original) && Next(s, a, transform, limit).Some?
    requires a.FlushData?
    ensures Inv(Next(s, a, transform, limit).value, transform, limit, original)
  {
    hide Core;
    FlushDataKeepsCore(s, a, transform, limit);
  }

  lemma FlushDirectoryKeeps(s: State, a: Action, transform: Transform, limit: nat, original: Bytes)
    requires Inv(s, transform, limit, original) && Next(s, a, transform, limit).Some?
    requires a.FlushDirectory?
    ensures Inv(Next(s, a, transform, limit).value, transform, limit, original)
  {
  }

  lemma SwapKeepsCore(s: State, a: Action, transform: Transform, limit: nat)
    requires Core(s, transform, limit) && Next(s, a, transform, limit).Some?
    requires a.Swap?
    ensures Core(Next(s, a, transform, limit).value, transform, limit)
  {
    hide Produced;
  }

  lemma OverwriteKeepsCore(s: State, a: Action, transform: Transform, limit: nat)
    requires Core(s, transform, limit) && Next(s, a, transform, limit).Some?
    requires a.Overwrite?
    ensures Core(Next(s, a, transform, limit).value, transform, limit)
  {
    hide Produced;
  }

  lemma NamesKeepCore(s: State, a: Action, transform: Transform, limit: nat)
    requires Core(s, transform, limit) && Next(s, a, transform, limit).Some?
    requires a.Remove? || a.Link?
    ensures Core(Next(s, a, transform, limit).value, transform, limit)
  {
    hide Produced;
  }

  lemma ForeignKeeps(s: State, a: Action, transform: Transform, limit: nat, original: Bytes)
    requires Inv(s, transform, limit, original) && Next(s, a, transform, limit).Some?
    requires Foreign(a)
    ensures Inv(Next(s, a, transform, limit).value, transform, limit, original)
  {
    hide Core;
    match a
    case Swap(_) => SwapKeepsCore(s, a, transform, limit);
    case Overwrite(_, _) => OverwriteKeepsCore(s, a, transform, limit);
    case _ => NamesKeepCore(s, a, transform, limit);
  }

  lemma StepKeeps(s: State, a: Action, transform: Transform, limit: nat, original: Bytes)
    requires Inv(s, transform, limit, original) && Next(s, a, transform, limit).Some?
    ensures Inv(Next(s, a, transform, limit).value, transform, limit, original)
  {
    hide Next, Inv;
    match a
    case Open(_) => OpenKeeps(s, a, transform, limit, original);
    case CheckSize => SizeKeeps(s, a, transform, limit, original);
    case Crash => StopKeeps(s, a, transform, limit, original);
    case Interrupted => StopKeeps(s, a, transform, limit, original);
    case Read(_) => ReadKeeps(s, a, transform, limit, original);
    case Decode => DecodeKeeps(s, a, transform, limit, original);
    case Check => CheckKeeps(s, a, transform, limit, original);
    case Create(_, _) => CreateKeeps(s, a, transform, limit, original);
    case Write(_) => WriteKeeps(s, a, transform, limit, original);
    case Sync(_) => SyncKeeps(s, a, transform, limit, original);
    case Rename(_) => RenameKeeps(s, a, transform, limit, original);
    case SyncDirectory(_) => SyncDirectoryKeeps(s, a, transform, limit, original);
    case Clean => CleanKeeps(s, a, transform, limit, original);
    case FlushData(_, _) => FlushDataKeeps(s, a, transform, limit, original);
    case FlushDirectory => FlushDirectoryKeeps(s, a, transform, limit, original);
    case _ => ForeignKeeps(s, a, transform, limit, original);
  }

  // Runs.

  lemma StartInv(s: State, transform: Transform, limit: nat, original: Bytes)
    requires Initial(s, original) && Sane(s.disk)
    ensures Inv(s, transform, limit, original)
  {
  }

  lemma {:induction false} RunKeeps(states: seq<State>, actions: seq<Action>, transform: Transform, limit: nat,
                                    original: Bytes, i: nat)
    requires Run(states, actions, transform, limit, original) && Sane(states[0].disk) && i <= |actions|
    ensures Inv(states[i], transform, limit, original)
  {
    hide Next, Inv, Initial, Sane;
    if i == 0 {
      StartInv(states[0], transform, limit, original);
    } else {
      RunKeeps(states, actions, transform, limit, original, i - 1);
      assert Next(states[i - 1], actions[i - 1], transform, limit) == Some(states[i - 1 + 1]);
      StepKeeps(states[i - 1], actions[i - 1], transform, limit, original);
    }
  }

  /** What a reader may find under the result name after the machine stops at `s`: the name may
      be bound as the kernel last knew it or as it is now, and unsynced bytes may be lost. */
  ghost predicate Survives(s: State, found: Bytes) {
    exists f: nat, length: nat |
      (Bound(s.disk) == Some(f) || s.disk.kept == Some(f)) && f in s.disk.files
      && s.disk.files[f].synced <= length <= |s.disk.files[f].data| ::
      found == s.disk.files[f].data[..length]
  }

  /** Without another process at work, whatever happened and wherever it stopped, the result is
      the original bytes or all of the encoded transformation of them. */
  lemma NeverAPrefix(states: seq<State>, actions: seq<Action>, transform: Transform, limit: nat,
                     original: Bytes, i: nat, found: Bytes)
    requires Run(states, actions, transform, limit, original) && Sane(states[0].disk) && i <= |actions|
    requires !states[i].touched && Survives(states[i], found)
    ensures found == original || (transform(original) == Some(found) && |found| <= limit)
  {
    hide Next, Initial, Sane, Placed;
    RunKeeps(states, actions, transform, limit, original, i);
    var s := states[i];
    var f: nat, length: nat :|
      (Bound(s.disk) == Some(f) || s.disk.kept == Some(f)) && f in s.disk.files
      && s.disk.files[f].synced <= length <= |s.disk.files[f].data|
      && found == s.disk.files[f].data[..length];
    assert IsOneOf(s, f, original);
    assert s.disk.files[f].synced == |s.disk.files[f].data|;
    assert found == s.disk.files[f].data;
  }

  /** Without another process, the result name always binds something, also before a crash. */
  lemma AlwaysBound(states: seq<State>, actions: seq<Action>, transform: Transform, limit: nat,
                    original: Bytes, i: nat)
    requires Run(states, actions, transform, limit, original) && Sane(states[0].disk) && i <= |actions|
    requires !states[i].touched
    ensures var s := states[i];
            && Bound(s.disk).Some? && Bound(s.disk).value in s.disk.files
            && (s.at.Finished? ==> s.temp.Some? && s.temp.value in s.disk.files
                                   && s.disk.files[s.temp.value].data == s.encoded
                                   && transform(original) == Some(s.encoded))
  {
    hide Next, Initial, Sane;
    RunKeeps(states, actions, transform, limit, original, i);
  }

  /** With another process at work: if the result is the file this process made, it is complete
      and made from the bytes that were read. */
  lemma OwnFileIsComplete(states: seq<State>, actions: seq<Action>, transform: Transform, limit: nat,
                          original: Bytes, i: nat)
    requires Run(states, actions, transform, limit, original) && Sane(states[0].disk) && i <= |actions|
    requires var s := states[i];
             s.temp.Some? && (Bound(s.disk) == s.temp || s.disk.kept == s.temp)
    ensures var s := states[i];
            && s.temp.value in s.disk.files && s.disk.files[s.temp.value] == File(s.encoded, |s.encoded|, true)
            && transform(s.got) == Some(s.encoded) && |s.encoded| <= limit
  {
    hide Next, Initial, Sane;
    RunKeeps(states, actions, transform, limit, original, i);
  }

  /** Exactly: the renamed-over file is the one the name is bound to at the rename. */
  lemma ReplacesExactly(s: State, transform: Transform, limit: nat)
    requires Next(s, Rename(true), transform, limit).Some?
    ensures var t := Next(s, Rename(true), transform, limit).value;
            t.at.SyncingDirectory? ==>
              && t.replaced == Bound(s.disk)
              && (t.replaced == Some(s.inode) <==> Bound(s.disk) == Some(s.inode))
  {
    hide Disturb;
  }

  /** Between a check and any later rename only a swap or a removal unbinds the file that was read. */
  lemma {:induction false} StillBound(states: seq<State>, actions: seq<Action>, transform: Transform, limit: nat,
                                      c: nat, j: nat)
    requires |states| == |actions| + 1 && c < j <= |actions| && actions[c].Check?
    requires forall i | 0 <= i < |actions| :: Next(states[i], actions[i], transform, limit) == Some(states[i + 1])
    requires forall k | c < k < j :: !actions[k].Swap? && !actions[k].Remove?
    ensures states[j].at.Renaming? ==> Bound(states[j].disk) == Some(states[j].inode)
    decreases j
  {
    hide Next;
    var k := j - 1;
    assert Next(states[k], actions[k], transform, limit) == Some(states[k + 1]);
    if k > c { StillBound(states, actions, transform, limit, c, k); }
    BindingStep(states[k], actions[k], transform, limit);
  }

  lemma BindingStep(s: State, a: Action, transform: Transform, limit: nat)
    requires Next(s, a, transform, limit).Some? && !a.Swap? && !a.Remove?
    requires a.Check? || (s.at.Renaming? ==> Bound(s.disk) == Some(s.inode))
    ensures var t := Next(s, a, transform, limit).value;
            t.at.Renaming? ==> Bound(t.disk) == Some(t.inode)
  {
    hide Private;
  }

  /** In a run the renamed-over file is the one that was read, if no swap and no removal of the
      result name came between a check and the rename; nothing else matters. */
  lemma ReplacesWhatItRead(states: seq<State>, actions: seq<Action>, transform: Transform, limit: nat,
                           original: Bytes, c: nat, i: nat)
    requires Run(states, actions, transform, limit, original) && c < i < |actions|
    requires actions[c].Check? && actions[i] == Rename(true) && states[i + 1].at.SyncingDirectory?
    requires forall k | c < k < i :: !actions[k].Swap? && !actions[k].Remove?
    ensures states[i + 1].replaced == Some(states[i].inode)
  {
    hide Next, Initial;
    StillBound(states, actions, transform, limit, c, i);
    assert Next(states[i], actions[i], transform, limit) == Some(states[i + 1]);
    ReplacesExactly(states[i], transform, limit);
    RenamesFromRenaming(states[i], transform, limit);
  }

  lemma RenamesFromRenaming(s: State, transform: Transform, limit: nat)
    requires Next(s, Rename(true), transform, limit).Some?
    ensures s.at.Renaming?
  {
    hide Disturb;
  }

  /** Someone who swaps the result in that gap has the swapped file replaced unread. */
  lemma GapLosesASwap(s: State, data: Bytes, transform: Transform, limit: nat)
    requires Core(s, transform, limit) && s.at.Renaming? && s.inode < s.disk.next
    ensures var t := Next(s, Swap(data), transform, limit);
            && t.Some? && Next(t.value, Rename(true), transform, limit).Some?
            && var u := Next(t.value, Rename(true), transform, limit).value;
               u.at.SyncingDirectory? && u.replaced == Some(s.disk.next) && u.replaced != Some(s.inode)
  {
    hide Sane, Produced;
  }

  // A run that loses a swap.

  const OLD_BYTES: Bytes := [0]
  const NEW_BYTES: Bytes := [1]

  function ToNew(data: Bytes): Option<Bytes> { Some(NEW_BYTES) }

  const START := State(Disk(map[Result := 0], Some(0), map[0 := File(OLD_BYTES, 1, true)], 1), Starting,
                       0, [], [], None, Result, 0, None, false)

  /** One undisturbed pass up to the check. */
  const PREFIX: seq<Action> :=
    [Open(true), CheckSize, Read(1), Read(0), Decode, Create("t", true), Write(1), Write(0), Sync(true), Check]

  /** The state after a sequence of actions, if all of them can be taken. */
  function Follow(s: State, actions: seq<Action>, limit: nat): Option<State>
    decreases |actions|
  {
    if actions == [] then Some(s)
    else
      var next := Next(s, actions[0], ToNew, limit);
      if next.None? then None else Follow(next.value, actions[1..], limit)
  }

  lemma {:induction false} FollowIsRun(s: State, actions: seq<Action>, limit: nat) returns (states: seq<State>)
    requires Follow(s, actions, limit).Some?
    ensures |states| == |actions| + 1 && states[0] == s && states[|actions|] == Follow(s, actions, limit).value
    ensures forall i | 0 <= i < |actions| :: Next(states[i], actions[i], ToNew, limit) == Some(states[i + 1])
    decreases |actions|
  {
    hide Next;
    if actions == [] {
      states := [s];
    } else {
      var rest := FollowIsRun(Next(s, actions[0], ToNew, limit).value, actions[1..], limit);
      states := [s] + rest;
      forall i | 0 <= i < |actions| ensures Next(states[i], actions[i], ToNew, limit) == Some(states[i + 1]) {
        if i > 0 { assert states[i] == rest[i - 1] && actions[i] == actions[1..][i - 1]; }
      }
    }
  }

  lemma {:induction false} FollowOn(s: State, first: seq<Action>, more: seq<Action>, limit: nat)
    requires Follow(s, first, limit).Some?
    ensures Follow(s, first + more, limit) == Follow(Follow(s, first, limit).value, more, limit)
    decreases |first|
  {
    hide Next;
    if first == [] {
      assert first + more == more;
    } else {
      FollowOn(Next(s, first[0], ToNew, limit).value, first[1..], more, limit);
      assert (first + more)[1..] == first[1..] + more;
    }
  }

  const OPENED := START.(at := Opened)
  const READING := OPENED.(at := Reading)
  const FILLED := READING.(got := OLD_BYTES)
  const DECODING := FILLED.(at := Decoding)
  const CREATING := DECODING.(at := Creating(0), encoded := NEW_BYTES)
  const WITH_TEMPORARY := map[Result := 0, Sibling("t") := 1]
  const WRITING := CREATING.(
    disk := Disk(WITH_TEMPORARY, Some(0), map[0 := File(OLD_BYTES, 1, true), 1 := File([], 0, true)], 2),
    at := Writing, temp := Some(1), token := Sibling("t"))
  const WRITTEN := WRITING.(
    disk := Disk(WITH_TEMPORARY, Some(0), map[0 := File(OLD_BYTES, 1, true), 1 := File(NEW_BYTES, 0, true)], 2),
    written := 1)
  const SYNCING := WRITTEN.(at := Syncing)
  const CHECKING := SYNCING.(
    disk := Disk(WITH_TEMPORARY, Some(0), map[0 := File(OLD_BYTES, 1, true), 1 := File(NEW_BYTES, 1, true)], 2),
    at := Checking)
  const RENAMING := CHECKING.(at := Renaming)

  lemma ReadingSteps(limit: nat)
    requires limit > 0
    ensures Next(START, Open(true), ToNew, limit) == Some(OPENED)
    ensures Next(OPENED, CheckSize, ToNew, limit) == Some(READING)
    ensures Next(READING, Read(1), ToNew, limit) == Some(FILLED)
    ensures Next(FILLED, Read(0), ToNew, limit) == Some(DECODING)
    ensures Next(DECODING, Decode, ToNew, limit) == Some(CREATING)
  {
    assert OLD_BYTES[0..1] == OLD_BYTES && [] + OLD_BYTES == OLD_BYTES;
  }

  lemma CreateStep(limit: nat)
    ensures Next(CREATING, Create("t", true), ToNew, limit) == Some(WRITING)
  {
    assert CREATING.disk.names[Sibling("t") := 1] == WITH_TEMPORARY;
    assert CREATING.disk.files[1 := File([], 0, true)] == WRITING.disk.files;
  }

  lemma WriteStep(limit: nat)
    ensures Next(WRITING, Write(1), ToNew, limit) == Some(WRITTEN)
    ensures Next(WRITTEN, Write(0), ToNew, limit) == Some(SYNCING)
  {
    var nothing: Bytes := [];
    assert nothing + NEW_BYTES[0..0 + 1] == NEW_BYTES;
    assert WRITING.disk.files[1 := File(NEW_BYTES, 0, true)] == WRITTEN.disk.files;
  }

  lemma CheckStep(limit: nat)
    ensures Next(SYNCING, Sync(true), ToNew, limit) == Some(CHECKING)
    ensures Next(CHECKING, Check, ToNew, limit) == Some(RENAMING)
  {
    assert SYNCING.disk.files[1 := File(NEW_BYTES, 1, true)] == CHECKING.disk.files;
  }

  lemma TakeStep(s: State, a: Action, rest: seq<Action>, t: State, limit: nat)
    requires Next(s, a, ToNew, limit) == Some(t)
    ensures Follow(s, [a] + rest, limit) == Follow(t, rest, limit)
  {
    hide Next;
    assert ([a] + rest)[1..] == rest;
  }

  lemma PrefixReachesRenaming(limit: nat)
    requires limit > 0
    ensures Follow(START, PREFIX, limit) == Some(RENAMING)
  {
    hide Next, Follow;
    ReadingSteps(limit);
    CreateStep(limit);
    WriteStep(limit);
    CheckStep(limit);
    var tail10: seq<Action> := [];
    var tail9 := [Check] + tail10;
    var tail8 := [Sync(true)] + tail9;
    var tail7 := [Write(0)] + tail8;
    var tail6 := [Write(1)] + tail7;
    var tail5 := [Create("t", true)] + tail6;
    var tail4 := [Decode] + tail5;
    var tail3 := [Read(0)] + tail4;
    var tail2 := [Read(1)] + tail3;
    var tail1 := [CheckSize] + tail2;
    TakeStep(CHECKING, Check, tail10, RENAMING, limit);
    TakeStep(SYNCING, Sync(true), tail9, CHECKING, limit);
    TakeStep(WRITTEN, Write(0), tail8, SYNCING, limit);
    TakeStep(WRITING, Write(1), tail7, WRITTEN, limit);
    TakeStep(CREATING, Create("t", true), tail6, WRITING, limit);
    TakeStep(DECODING, Decode, tail5, CREATING, limit);
    TakeStep(FILLED, Read(0), tail4, DECODING, limit);
    TakeStep(READING, Read(1), tail3, FILLED, limit);
    TakeStep(OPENED, CheckSize, tail2, READING, limit);
    TakeStep(START, Open(true), tail1, OPENED, limit);
    assert PREFIX == [Open(true)] + tail1;
    NothingToFollow(RENAMING, limit);
  }

  lemma NothingToFollow(s: State, limit: nat)
    ensures Follow(s, [], limit) == Some(s)
  {
  }

  /** There is such a run from the start: someone swaps the result between check and rename, and
      the rename replaces a file that was never read. */
  lemma SwapIsLostInARun(data: Bytes, limit: nat) returns (states: seq<State>, actions: seq<Action>)
    requires limit > 0
    ensures Run(states, actions, ToNew, limit, OLD_BYTES) && Sane(states[0].disk)
    ensures var last := states[|actions|];
            last.at.SyncingDirectory? && last.replaced.Some? && last.replaced != Some(last.inode)
  {
    hide Next, Follow;
    actions := PREFIX + [Swap(data), Rename(true)];
    PrefixReachesRenaming(limit);
    SwapThenRename(data, limit);
    FollowOn(START, PREFIX, [Swap(data), Rename(true)], limit);
    states := FollowIsRun(START, actions, limit);
  }

  lemma SwapThenRename(data: Bytes, limit: nat)
    ensures var u := Follow(RENAMING, [Swap(data), Rename(true)], limit);
            u.Some? && u.value.at.SyncingDirectory? && u.value.replaced == Some(2) && u.value.inode == 0
  {
    hide Follow;
    var t := Next(RENAMING, Swap(data), ToNew, limit).value;
    var u := Next(t, Rename(true), ToNew, limit).value;
    TakeStep(RENAMING, Swap(data), [Rename(true)], t, limit);
    TakeStep(t, Rename(true), [], u, limit);
    assert [Swap(data)] + [Rename(true)] == [Swap(data), Rename(true)] && [Rename(true)] + [] == [Rename(true)];
    NothingToFollow(u, limit);
  }
}
