/** The bounded projector of a native session trace: one pass over chained JSON lines. */
module TraceProjector {
  import opened Json
  import opened TraceRecord
  import opened Collections

  const MAX_SOURCE_BYTES := 32_000_000
  const MAX_RECORD_BYTES := 4_000_000
  const MAX_RECORDS := 10_000

  newtype byte = x: int | 0 <= x < 256
  type Bytes = seq<byte>
  const LF: byte := 10

  // Streams and lines.

  /** The number of bytes up to and including the first line feed, or all of them. */
  function LineLength(s: Bytes): (n: nat)
    ensures n <= |s| && (s != [] ==> n > 0)
    ensures forall i | 0 <= i < n - 1 :: s[i] != LF
    ensures n < |s| ==> n > 0 && s[n - 1] == LF
  {
    if s == [] then 0 else if s[0] == LF then 1 else 1 + LineLength(s[1..])
  }

  function Lines(s: Bytes): (lines: seq<Bytes>)
    ensures forall i | 0 <= i < |lines| :: lines[i] != []
  {
    if s == [] then [] else [s[..LineLength(s)]] + Lines(s[LineLength(s)..])
  }

  function Concat(parts: seq<Bytes>): Bytes {
    if parts == [] then [] else parts[0] + Concat(parts[1..])
  }

  class ByteStream {
    const data: Bytes
    var pos: nat

    ghost predicate Valid() reads this { pos <= |data| }

    constructor (data: Bytes)
      ensures Valid() && this.data == data && pos == 0
    {
      this.data, this.pos := data, 0;
    }

    /** `readline(limit)`: the rest of the current line, cut off after `limit` bytes. */
    method ReadLine(limit: nat) returns (line: Bytes)
      requires Valid()
      modifies this
      ensures Valid() && pos == old(pos) + |line|
      ensures var rest := data[old(pos)..];
              line == rest[..if LineLength(rest) < limit then LineLength(rest) else limit]
    {
      var rest := data[pos..];
      var n := LineLength(rest);
      line := rest[..if n < limit then n else limit];
      pos := pos + |line|;
    }

    method AtEnd() returns (b: bool)
      requires Valid()
      ensures b <==> pos == |data|
    {
      b := pos == |data|;
    }
  }

  lemma {:induction false} LinesConcat(s: Bytes)
    ensures Concat(Lines(s)) == s
  {
    if s != [] {
      var rest := s[LineLength(s)..];
      LinesConcat(rest);
      assert Lines(s)[0] == s[..LineLength(s)] && Lines(s)[1..] == Lines(rest);
    }
  }

  // Records.

  /** The run a trace must belong to. */
  datatype Run = Run(session: string, base: string, head: string, repository: string)

  predicate LowerHex(s: string) {
    forall i | 0 <= i < |s| :: '0' <= s[i] <= '9' || 'a' <= s[i] <= 'f'
  }

  /** `[a-f0-9]{8}(?:-[a-f0-9]{4}){3}-[a-f0-9]{12}` */
  predicate IsUuid(s: string) {
    && |s| == 36 && s[8] == s[13] == s[18] == s[23] == '-'
    && LowerHex(s[..8]) && LowerHex(s[9..13]) && LowerHex(s[14..18]) && LowerHex(s[19..23]) && LowerHex(s[24..])
  }

  predicate IsType(v: Json, kind: string)
    requires v.Obj?
  {
    GetOrNull(v, "type") == Str(kind)
  }

  predicate IsHeader(v: Json, run: Run)
    requires v.Obj?
  {
    && IsType(v, "session_start") && GetOrNull(v, "reviewMode") == Str("range")
    && GetOrNull(v, "diffFrom") == Str(run.base) && GetOrNull(v, "diffTo") == Str(run.head)
    && GetOrNull(v, "cwd") == Str(run.repository)
  }

  /** Record `i` of a session is in order: it belongs to the run, only the first one opens the
      session, nothing follows its end, and it extends the chain of unique identities. */
  predicate InOrder(values: seq<Json>, i: nat, run: Run)
    requires i < |values| && forall j | 0 <= j <= i :: values[j].Obj?
  {
    var v := values[i];
    && GetOrNull(v, "sessionId") == Str(run.session)
    && (if i == 0 then IsHeader(v, run)
        else !IsType(v, "session_start") && !IsType(values[i - 1], "session_end"))
    && GetOrNull(v, "uuid").Str? && IsUuid(GetOrNull(v, "uuid").text)
    && (forall j | 0 <= j < i :: GetOrNull(values[j], "uuid") != GetOrNull(v, "uuid"))
    && GetOrNull(v, "parentUuid") == if i == 0 then Null else GetOrNull(values[i - 1], "uuid")
  }

  predicate Chained(values: seq<Json>, run: Run) {
    && (forall i | 0 <= i < |values| :: values[i].Obj?)
    && (forall i | 0 <= i < |values| :: InOrder(values, i, run))
  }

  /** The projected line of a record, unless it is not selected or cannot be written. */
  type Projection = Json -> Option<Bytes>

  /** The projected lines of all records that have one, in order. */
  function Selected(values: seq<Json>, project: Projection): Bytes {
    if values == [] then []
    else
      var last := project(values[|values| - 1]);
      Selected(values[..|values| - 1], project) + (if last.Some? then last.value else [])
  }

  predicate Decodes(lines: seq<Bytes>, values: seq<Json>, decode: Bytes -> Option<Json>) {
    && |values| <= |lines|
    && forall i | 0 <= i < |values| :: decode(lines[i]) == Some(values[i])
  }

  predicate Terminated(line: Bytes) {
    line != [] && line[|line| - 1] == LF
  }

  predicate WithinBounds(data: Bytes) {
    var lines := Lines(data);
    && 0 < |lines| <= MAX_RECORDS
    && (|data| < MAX_SOURCE_BYTES || (|data| == MAX_SOURCE_BYTES && |lines| == MAX_RECORDS))
    && (forall i | 0 <= i < |lines| :: |lines[i]| <= MAX_RECORD_BYTES && Terminated(lines[i]))
  }

  /** A complete trace: every line decodes, the records form one closed chain, all of them are
      projected, and everything stays within its bounds. */
  ghost predicate CompleteTrace(data: Bytes, values: seq<Json>, run: Run, decode: Bytes -> Option<Json>,
                                project: Projection, maxOutput: nat)
  {
    && WithinBounds(data)
    && |values| == |Lines(data)| && Decodes(Lines(data), values, decode)
    && Chained(values, run)
    && (forall i | 0 <= i < |values| :: project(values[i]).Some?)
    && |Selected(values, project)| <= maxOutput
    && IsType(values[|values| - 1], "session_end")
  }

  datatype Capture = Capture(content: Bytes, passed: bool, observed: nat, retained: nat, omitted: nat,
                             complete: bool, truncated: bool)

  function RetainedCount(values: seq<Json>, project: Projection): (n: nat)
    ensures n <= |values|
  {
    if values == [] then 0
    else RetainedCount(values[..|values| - 1], project) + (if project(values[|values| - 1]).Some? then 1 else 0)
  }

  lemma {:induction false} AllRetained(values: seq<Json>, project: Projection)
    ensures RetainedCount(values, project) == |values| <==>
            forall i | 0 <= i < |values| :: project(values[i]).Some?
  {
    if values != [] {
      var before := values[..|values| - 1];
      AllRetained(before, project);
      assert forall i | 0 <= i < |before| :: before[i] == values[i];
    }
  }

  lemma {:induction false} SelectedPrefix(values: seq<Json>, k: nat, project: Projection)
    requires k <= |values|
    ensures |Selected(values[..k], project)| <= |Selected(values, project)|
  {
    if k < |values| {
      SelectedPrefix(values[..|values| - 1], k, project);
      assert values[..|values| - 1][..k] == values[..k];
    } else {
      assert values[..k] == values;
    }
  }

  // The running state of the scan.

  /** What the loop variables say about the records processed so far. */
  ghost predicate Tracked(values: seq<Json>, run: Run, previous: Option<string>, identifiers: set<string>, ended: bool)
  {
    && Chained(values, run)
    && (forall i | 0 <= i < |values| :: GetOrNull(values[i], "uuid").Str?)
    && previous == (if values == [] then None else Some(GetOrNull(values[|values| - 1], "uuid").text))
    && identifiers == (set i | 0 <= i < |values| :: GetOrNull(values[i], "uuid").text)
    && (ended <==> values != [] && IsType(values[|values| - 1], "session_end"))
  }

  /** Whether one decoded record is accepted, as the loop computes it. */
  predicate Accepts(v: Json, first: bool, run: Run, previous: Option<string>, identifiers: set<string>, ended: bool) {
    && v.Obj? && GetOrNull(v, "sessionId") == Str(run.session)
    && (if first then IsHeader(v, run) else !(IsType(v, "session_start") || ended))
    && GetOrNull(v, "uuid").Str? && IsUuid(GetOrNull(v, "uuid").text)
    && GetOrNull(v, "uuid").text !in identifiers
    && GetOrNull(v, "parentUuid") == (match previous case None => Null case Some(p) => Str(p))
  }

  lemma AcceptsInOrder(values: seq<Json>, v: Json, run: Run, previous: Option<string>, identifiers: set<string>,
                       ended: bool)
    requires Tracked(values, run, previous, identifiers, ended)
    ensures Accepts(v, values == [], run, previous, identifiers, ended) <==>
            v.Obj? && InOrder(values + [v], |values|, run)
  {
    var more := values + [v];
    if v.Obj? && GetOrNull(v, "uuid").Str? {
      assert (forall j | 0 <= j < |values| :: GetOrNull(more[j], "uuid") != GetOrNull(v, "uuid")) <==>
             GetOrNull(v, "uuid").text !in identifiers by {
        forall j | 0 <= j < |values| ensures more[j] == values[j] && GetOrNull(values[j], "uuid").text in identifiers {
        }
      }
    }
  }

  lemma TrackNext(values: seq<Json>, v: Json, run: Run, previous: Option<string>, identifiers: set<string>, ended: bool)
    requires Tracked(values, run, previous, identifiers, ended)
    requires v.Obj? && InOrder(values + [v], |values|, run)
    ensures Tracked(values + [v], run, Some(GetOrNull(v, "uuid").text),
                    identifiers + {GetOrNull(v, "uuid").text}, IsType(v, "session_end"))
  {
    var more := values + [v];
    forall i | 0 <= i < |more| ensures more[i].Obj? && GetOrNull(more[i], "uuid").Str? {
      if i < |values| { assert more[i] == values[i]; }
    }
    forall i | 0 <= i < |more| ensures InOrder(more, i, run) {
      if i < |values| {
        assert InOrder(values, i, run);
        assert forall j | 0 <= j <= i :: more[j] == values[j];
      }
    }
    assert (set i | 0 <= i < |more| :: GetOrNull(more[i], "uuid").text)
      == identifiers + {GetOrNull(v, "uuid").text} by {
      forall i | 0 <= i < |values|
        ensures GetOrNull(values[i], "uuid").text in set i | 0 <= i < |more| :: GetOrNull(more[i], "uuid").text
      {
        assert more[i] == values[i];
      }
      assert more[|values|] == v;
    }
  }

  /** Decoding is deterministic, so what was processed is a prefix of any complete trace. */
  lemma Determined(data: Bytes, values: seq<Json>, full: seq<Json>, run: Run, decode: Bytes -> Option<Json>,
                   project: Projection, maxOutput: nat)
    requires CompleteTrace(data, full, run, decode, project, maxOutput)
    requires Decodes(Lines(data), values, decode)
    ensures |values| <= |full| && values == full[..|values|]
  {
    forall i | 0 <= i < |values| ensures values[i] == full[i] {
      assert decode(Lines(data)[i]) == Some(values[i]);
    }
  }

  /** Every record of a complete trace continues the chain of those before it. */
  lemma ChainContinues(data: Bytes, values: seq<Json>, v: Json, run: Run, decode: Bytes -> Option<Json>,
                       project: Projection, maxOutput: nat, full: seq<Json>)
    requires Decodes(Lines(data), values + [v], decode)
    requires forall i | 0 <= i < |values| :: values[i].Obj?
    requires CompleteTrace(data, full, run, decode, project, maxOutput)
    ensures v.Obj? && InOrder(values + [v], |values|, run) && project(v).Some?
  {
    Determined(data, values + [v], full, run, decode, project, maxOutput);
    var k := |values|;
    assert full[k] == (values + [v])[k] == v;
    assert forall j | 0 <= j <= k :: full[j] == (values + [v])[j];
    assert InOrder(full, k, run);
  }

  /** The output for any prefix of a complete trace stays within the bound. */
  lemma OutputFits(data: Bytes, values: seq<Json>, run: Run, decode: Bytes -> Option<Json>,
                   project: Projection, maxOutput: nat, full: seq<Json>)
    requires Decodes(Lines(data), values, decode)
    requires CompleteTrace(data, full, run, decode, project, maxOutput)
    ensures |Selected(values, project)| <= maxOutput
  {
    Determined(data, values, full, run, decode, project, maxOutput);
    SelectedPrefix(full, |values|, project);
  }

  ghost predicate Incomplete(data: Bytes, run: Run, decode: Bytes -> Option<Json>,
                             project: Projection, maxOutput: nat) {
    forall full :: !CompleteTrace(data, full, run, decode, project, maxOutput)
  }

  /** The reading position: `k` whole lines have been consumed. */
  ghost predicate Reading(data: Bytes, pos: nat, k: nat) {
    && pos <= |data| && k <= |Lines(data)| && Lines(data[pos..]) == Lines(data)[k..]
    && (forall i | 0 <= i < k :: |Lines(data)[i]| <= MAX_RECORD_BYTES)
    && (k == |Lines(data)| <==> pos == |data|)
  }

  /** Reading one line that stayed within its limit consumes exactly the next whole line. */
  lemma NextLine(data: Bytes, pos: nat, k: nat, line: Bytes)
    requires Reading(data, pos, k) && pos < |data|
    requires line == data[pos..][..LineLength(data[pos..])] && |line| <= MAX_RECORD_BYTES
    ensures k < |Lines(data)| && line == Lines(data)[k]
    ensures Reading(data, pos + |line|, k + 1)
  {
    var rest := data[pos..];
    assert Lines(rest)[0] == line && Lines(rest)[1..] == Lines(rest[|line|..]);
    assert rest[|line|..] == data[pos + |line|..];
    assert Lines(data)[k..][0] == line;
    assert Lines(data)[k..][1..] == Lines(data)[k + 1..];
  }

  /** A line that does not fit its limits rules out a complete trace. */
  lemma OversizedLine(data: Bytes, pos: nat, k: nat, run: Run, decode: Bytes -> Option<Json>,
                      project: Projection, maxOutput: nat)
    requires Reading(data, pos, k) && pos < |data|
    requires LineLength(data[pos..]) > MAX_RECORD_BYTES || pos + LineLength(data[pos..]) > MAX_SOURCE_BYTES
    ensures Incomplete(data, run, decode, project, maxOutput)
  {
    var rest := data[pos..];
    assert Lines(rest)[0] == rest[..LineLength(rest)];
    assert Lines(data)[k] == Lines(data)[k..][0];
  }

  /** Running out of source bytes before the last record rules out a complete trace. */
  lemma SourceExhausted(data: Bytes, k: nat, run: Run, decode: Bytes -> Option<Json>,
                        project: Projection, maxOutput: nat)
    requires Reading(data, MAX_SOURCE_BYTES, k) && k < MAX_RECORDS
    ensures Incomplete(data, run, decode, project, maxOutput)
  {
  }

  /** The verdict once the whole stream has been consumed. */
  lemma Verdict(data: Bytes, values: seq<Json>, run: Run, decode: Bytes -> Option<Json>, project: Projection,
                maxOutput: nat, ended: bool, truncated: bool)
    requires Reading(data, |data|, |values|) && Decodes(Lines(data), values, decode) && Chained(values, run)
    requires |values| == |Lines(data)| <= MAX_RECORDS
    requires |data| < MAX_SOURCE_BYTES || (|data| == MAX_SOURCE_BYTES && |values| == MAX_RECORDS)
    requires truncated <==> exists i :: 0 <= i < |values| && !Terminated(Lines(data)[i])
    requires ended <==> values != [] && IsType(values[|values| - 1], "session_end")
    requires |Selected(values, project)| <= maxOutput
    ensures if ended && !truncated && RetainedCount(values, project) == |values|
            then CompleteTrace(data, values, run, decode, project, maxOutput)
            else Incomplete(data, run, decode, project, maxOutput)
  {
    AllRetained(values, project);
    forall full | CompleteTrace(data, full, run, decode, project, maxOutput)
      ensures ended && !truncated && RetainedCount(values, project) == |values|
    {
      Determined(data, values, full, run, decode, project, maxOutput);
      assert full[..|values|] == full;
    }
  }

  lemma StartOfStream(data: Bytes, run: Run, project: Projection)
    ensures Tracked([], run, None, {}, false) && Chained([], run)
    ensures forall decode :: Decodes(Lines(data), [], decode)
    ensures Reading(data, 0, 0) && Selected([], project) == [] && RetainedCount([], project) == 0
  {
    assert data[0..] == data;
  }

  lemma EndOfStream(data: Bytes, pos: nat, values: seq<Json>, run: Run, previous: Option<string>,
                    identifiers: set<string>, ended: bool)
    requires Reading(data, pos, |values|) && Tracked(values, run, previous, identifiers, ended)
    ensures pos == |data| <==> |values| == |Lines(data)|
    ensures Chained(values, run) && (ended <==> values != [] && IsType(values[|values| - 1], "session_end"))
  {
  }

  /** A line that does not decode rules out a complete trace. */
  lemma UndecodableLine(data: Bytes, k: nat, run: Run, decode: Bytes -> Option<Json>,
                        project: Projection, maxOutput: nat)
    requires k < |Lines(data)| && decode(Lines(data)[k]).None?
    ensures Incomplete(data, run, decode, project, maxOutput)
  {
  }

  /** More than the bounded number of records rules out a complete trace. */
  lemma TooManyRecords(data: Bytes, pos: nat, run: Run, decode: Bytes -> Option<Json>,
                       project: Projection, maxOutput: nat)
    requires Reading(data, pos, MAX_RECORDS) && pos < |data|
    ensures Incomplete(data, run, decode, project, maxOutput)
  {
  }

  /** What the next decoded record decides. */
  lemma RecordDecides(data: Bytes, values: seq<Json>, v: Json, run: Run, decode: Bytes -> Option<Json>,
                      project: Projection, maxOutput: nat,
                      previous: Option<string>, identifiers: set<string>, ended: bool)
    requires Tracked(values, run, previous, identifiers, ended)
    requires Decodes(Lines(data), values, decode)
    requires |values| < |Lines(data)| && decode(Lines(data)[|values|]) == Some(v)
    ensures Decodes(Lines(data), values + [v], decode)
    ensures Selected(values + [v], project) ==
            Selected(values, project) + (if project(v).Some? then project(v).value else [])
    ensures RetainedCount(values + [v], project) ==
            RetainedCount(values, project) + (if project(v).Some? then 1 else 0)
    ensures if Accepts(v, values == [], run, previous, identifiers, ended)
            then v.Obj? && GetOrNull(v, "uuid").Str? && !ended &&
                 Tracked(values + [v], run, Some(GetOrNull(v, "uuid").text),
                         identifiers + {GetOrNull(v, "uuid").text}, IsType(v, "session_end")) &&
                 Chained(values + [v], run)
            else Incomplete(data, run, decode, project, maxOutput)
    ensures project(v).None? ==> Incomplete(data, run, decode, project, maxOutput)
    ensures |Selected(values + [v], project)| > maxOutput ==> Incomplete(data, run, decode, project, maxOutput)
  {
    assert (values + [v])[..|values|] == values;
    AcceptsInOrder(values, v, run, previous, identifiers, ended);
    forall full | CompleteTrace(data, full, run, decode, project, maxOutput)
      ensures v.Obj? && InOrder(values + [v], |values|, run) && project(v).Some?
      ensures |Selected(values + [v], project)| <= maxOutput
    {
      ChainContinues(data, values, v, run, decode, project, maxOutput, full);
      OutputFits(data, values + [v], run, decode, project, maxOutput, full);
    }
    if v.Obj? && InOrder(values + [v], |values|, run) {
      TrackNext(values, v, run, previous, identifiers, ended);
    }
  }

  datatype Next = End | Oversized | Line(line: Bytes)

  /** Reads the next line within the record and source limits. */
  method ReadNext(stream: ByteStream, readBytes: nat, ghost k: nat, ghost run: Run,
                  ghost decode: Bytes -> Option<Json>, ghost project: Projection, ghost maxOutput: nat)
    returns (next: Next)
    requires stream.Valid() && readBytes == stream.pos < MAX_SOURCE_BYTES && Reading(stream.data, readBytes, k)
    modifies stream
    ensures stream.Valid()
    ensures next.End? <==> readBytes == |stream.data|
    ensures next.End? ==> stream.pos == readBytes
    ensures next.Oversized? ==> Incomplete(stream.data, run, decode, project, maxOutput)
    ensures next.Line? ==>
      && stream.pos == readBytes + |next.line| <= MAX_SOURCE_BYTES
      && k < |Lines(stream.data)| && next.line == Lines(stream.data)[k]
      && Reading(stream.data, stream.pos, k + 1)
  {
    hide Lines, Reading, Incomplete;
    var remaining := MAX_SOURCE_BYTES - readBytes;
    var limit := (if MAX_RECORD_BYTES < remaining then MAX_RECORD_BYTES else remaining) + 1;
    var line := stream.ReadLine(limit);
    if line == [] {
      return End;
    }
    if |line| > MAX_RECORD_BYTES || readBytes + |line| > MAX_SOURCE_BYTES {
      OversizedLine(stream.data, readBytes, k, run, decode, project, maxOutput);
      return Oversized;
    }
    NextLine(stream.data, readBytes, k, line);
    return Line(line);
  }

  /** The locals of the scan. */
  datatype Scan = Scan(output: Bytes, records: nat, retained: nat, ended: bool, complete: bool, truncated: bool,
                       previous: Option<string>, identifiers: set<string>)

  /** What the locals say about the records processed so far. */
  ghost predicate InStep(data: Bytes, values: seq<Json>, st: Scan, run: Run, decode: Bytes -> Option<Json>,
                         project: Projection, maxOutput: nat)
  {
    && st.records == |values| && Decodes(Lines(data), values, decode)
    && Tracked(values, run, st.previous, st.identifiers, st.ended)
    && (st.truncated <==> exists i :: 0 <= i < |values| && !Terminated(Lines(data)[i]))
    && st.output == Selected(values, project) && |st.output| <= maxOutput
    && st.retained == RetainedCount(values, project)
    && (st.complete <==> st.ended && project(values[|values| - 1]).Some?)
  }

  /** What a capture may claim about the records it was made from. */
  ghost predicate Reported(data: Bytes, values: seq<Json>, capture: Capture, run: Run, decode: Bytes -> Option<Json>,
                           project: Projection, maxOutput: nat)
  {
    && Decodes(Lines(data), values, decode) && Chained(values, run)
    && capture.content == Selected(values, project) && |capture.content| <= maxOutput
    && capture.retained == RetainedCount(values, project)
    && capture.retained <= |values| <= capture.observed <= |values| + 1
  }

  /** The facts a scan hands out; `more` says that input is left after the last record. */
  function Facts(st: Scan, more: bool): Capture
    requires st.retained <= st.records
  {
    var truncated := st.truncated || (st.records == MAX_RECORDS && more);
    Capture(st.output, st.complete && !truncated && st.records == st.retained, st.records, st.retained,
            st.records - st.retained, st.complete, truncated)
  }

  /** The capture is what the records say, and passes exactly when the trace is complete. */
  ghost predicate Sound(data: Bytes, values: seq<Json>, capture: Capture, run: Run, decode: Bytes -> Option<Json>,
                        project: Projection, maxOutput: nat)
  {
    && Reported(data, values, capture, run, decode, project, maxOutput)
    && (if capture.passed then CompleteTrace(data, values, run, decode, project, maxOutput)
        else Incomplete(data, run, decode, project, maxOutput))
  }

  /** The verdict after the loop has run to the end of the stream or to the record limit. */
  lemma Conclude(data: Bytes, pos: nat, values: seq<Json>, st: Scan, run: Run, decode: Bytes -> Option<Json>,
                 project: Projection, maxOutput: nat)
    requires Reading(data, pos, st.records) && InStep(data, values, st, run, decode, project, maxOutput)
    requires st.records == MAX_RECORDS || (st.records < MAX_RECORDS && pos == |data| < MAX_SOURCE_BYTES)
    requires pos <= MAX_SOURCE_BYTES
    ensures st.retained <= st.records
    ensures Sound(data, values, Facts(st, pos < |data|), run, decode, project, maxOutput)
  {
    EndOfStream(data, pos, values, run, st.previous, st.identifiers, st.ended);
    if pos < |data| {
      TooManyRecords(data, pos, run, decode, project, maxOutput);
    } else {
      Verdict(data, values, run, decode, project, maxOutput, st.ended, st.truncated);
      AllRetained(values, project);
    }
  }

  /** Giving up early is sound once the trace is known to be incomplete. */
  lemma StopEarly(data: Bytes, values: seq<Json>, st: Scan, run: Run, decode: Bytes -> Option<Json>,
                  project: Projection, maxOutput: nat)
    requires InStep(data, values, st, run, decode, project, maxOutput)
    requires Incomplete(data, run, decode, project, maxOutput)
    ensures st.retained <= st.records
    ensures forall more :: Sound(data, values, Facts(st.(truncated := true), more), run, decode, project, maxOutput)
  {
  }

  datatype Exit = Continue | Break | Raise

  /** The rest of the loop body, once a line has been read: decode, check, project, append. */
  method Absorb(data: Bytes, ghost values: seq<Json>, st: Scan, line: Bytes, run: Run, decode: Bytes -> Option<Json>,
                project: Projection, maxOutput: nat)
    returns (exit: Exit, st': Scan, ghost values': seq<Json>)
    requires InStep(data, values, st, run, decode, project, maxOutput)
    requires |values| < |Lines(data)| && line == Lines(data)[|values|]
    ensures !exit.Continue? ==> Incomplete(data, run, decode, project, maxOutput)
    ensures st'.records == |values| + 1
    ensures exit.Continue? ==> |values'| == |values| + 1 && InStep(data, values', st', run, decode, project, maxOutput)
    ensures exit.Break? ==>
      && values' == values && st'.retained < st'.records
      && forall more :: Sound(data, values, Facts(st', more), run, decode, project, maxOutput)
  {
    hide Lines, Selected, RetainedCount, IsHeader, IsUuid, InOrder, CompleteTrace;
    exit, st', values' := Raise, st.(records := st.records + 1, truncated := st.truncated || !Terminated(line)), values;
    var decoded := decode(line);
    if decoded.None? {
      UndecodableLine(data, |values|, run, decode, project, maxOutput);
      if st'.records == 1 { return; }
      exit := Break;
      return;
    }
    var value := decoded.value;
    RecordDecides(data, values, value, run, decode, project, maxOutput, st.previous, st.identifiers, st.ended);
    hide Tracked, Accepts, Incomplete;
    if !Accepts(value, st'.records == 1, run, st.previous, st.identifiers, st.ended) { return; }
    var id, ended := GetOrNull(value, "uuid").text, IsType(value, "session_end");
    st' := st'.(previous := Some(id), identifiers := st.identifiers + {id}, ended := ended);
    var projected := project(value);
    if projected.None? {
      if st'.records == 1 { return; }
      exit, values' := Continue, values + [value];
      return;
    }
    if |st.output| + |projected.value| > maxOutput {
      exit, st' := Break, st'.(truncated := true);
      return;
    }
    exit, values' := Continue, values + [value];
    st' := st'.(output := st.output + projected.value, retained := st.retained + 1, complete := ended);
  }

  const START := Scan([], 0, 0, false, false, false, None, {})

  lemma FirstStep(data: Bytes, run: Run, decode: Bytes -> Option<Json>, project: Projection, maxOutput: nat)
    ensures InStep(data, [], START, run, decode, project, maxOutput) && Reading(data, 0, 0)
  {
    StartOfStream(data, run, project);
  }

  /** The loop over the stream, up to the end, an early stop, or an error. */
  method ReadRecords(stream: ByteStream, run: Run, maxOutput: nat, decode: Bytes -> Option<Json>, project: Projection)
    returns (exit: Exit, st: Scan, ghost values: seq<Json>)
    requires stream.Valid() && stream.pos == 0
    modifies stream
    ensures stream.Valid() && st.records <= MAX_RECORDS
    ensures exit.Raise? ==> Incomplete(stream.data, run, decode, project, maxOutput)
    ensures !exit.Raise? ==>
      && st.retained <= st.records
      && var capture := Facts(st, stream.pos < |stream.data|);
         Sound(stream.data, values, capture, run, decode, project, maxOutput)
  {
    hide Lines, Reading, InStep, Sound, CompleteTrace, Incomplete;
    var data := stream.data;
    var readBytes := 0;
    st, values := START, [];
    FirstStep(data, run, decode, project, maxOutput);
    while st.records < MAX_RECORDS
      invariant stream.Valid() && readBytes == stream.pos <= MAX_SOURCE_BYTES
      invariant st.records == |values| <= MAX_RECORDS && Reading(data, readBytes, st.records)
      invariant InStep(data, values, st, run, decode, project, maxOutput)
      decreases MAX_RECORDS - st.records
    {
      if readBytes >= MAX_SOURCE_BYTES {
        SourceExhausted(data, st.records, run, decode, project, maxOutput);
        StopEarly(data, values, st, run, decode, project, maxOutput);
        return Break, st.(truncated := true), values;
      }
      var next := ReadNext(stream, readBytes, st.records, run, decode, project, maxOutput);
      if next.End? {
        Conclude(data, readBytes, values, st, run, decode, project, maxOutput);
        return Continue, st, values;
      }
      if next.Oversized? {
        StopEarly(data, values, st, run, decode, project, maxOutput);
        return Break, st.(truncated := true), values;
      }
      readBytes := readBytes + |next.line|;
      exit, st, values := Absorb(data, values, st, next.line, run, decode, project, maxOutput);
      if !exit.Continue? { return; }
    }
    Conclude(data, readBytes, values, st, run, decode, project, maxOutput);
    exit := Continue;
  }

  /** The scan. A capture passes exactly when the whole stream is one complete trace; its
      content is always the projection of the records processed, in order. */
  method Project(stream: ByteStream, run: Run, maxOutput: nat, decode: Bytes -> Option<Json>, project: Projection)
    returns (r: Result<Capture>, ghost values: seq<Json>)
    requires stream.Valid() && stream.pos == 0
    modifies stream
    ensures r.Err? ==> Incomplete(stream.data, run, decode, project, maxOutput)
    ensures r.Ok? ==> Sound(stream.data, values, r.value, run, decode, project, maxOutput)
    ensures r.Ok? ==> r.value.observed <= MAX_RECORDS && r.value.omitted == r.value.observed - r.value.retained
  {
    var exit, st;
    exit, st, values := ReadRecords(stream, run, maxOutput, decode, project);
    if exit.Raise? { return Err, values; }
    var atEnd := stream.AtEnd();
    r := Ok(Facts(st, !atEnd));
  }

  // The limit on the source.

  /** `lines` lines of `length` bytes each. */
  function Block(length: nat, lines: nat): Bytes
    requires length > 0
  {
    if lines == 0 then [] else Row(length) + Block(length, lines - 1)
  }

  function Row(length: nat): (line: Bytes)
    requires length > 0
    ensures |line| == length && Terminated(line) && forall i | 0 <= i < length - 1 :: line[i] != LF
  {
    Repeat(0 as byte, length - 1) + [LF]
  }

  lemma {:induction false} RowLength(line: Bytes, rest: Bytes)
    requires Terminated(line) && forall i | 0 <= i < |line| - 1 :: line[i] != LF
    ensures LineLength(line + rest) == |line|
  {
    var s := line + rest;
    if |line| > 1 {
      RowLength(line[1..], rest);
      assert s[1..] == line[1..] + rest;
      assert s[0] == line[0];
    } else {
      assert s[0] == LF;
    }
  }

  lemma {:induction false} BlockSize(length: nat, lines: nat)
    requires length > 0
    ensures |Block(length, lines)| == length * lines
  {
    if lines > 0 {
      BlockSize(length, lines - 1);
      assert length * lines == length * (lines - 1) + length;
    }
  }

  lemma FirstLineFirst(line: Bytes, rest: Bytes)
    requires line != [] && LineLength(line + rest) == |line|
    ensures Lines(line + rest) == [line] + Lines(rest)
  {
    hide LineLength;
    var s := line + rest;
    assert s[..|line|] == line && s[|line|..] == rest;
  }

  lemma {:induction false} BlockLines(length: nat, lines: nat)
    requires length > 0
    ensures Lines(Block(length, lines)) == Repeat(Row(length), lines)
  {
    hide Lines, LineLength;
    if lines > 0 {
      BlockLines(length, lines - 1);
      RowLength(Row(length), Block(length, lines - 1));
      FirstLineFirst(Row(length), Block(length, lines - 1));
      assert Repeat(Row(length), lines) == [Row(length)] + Repeat(Row(length), lines - 1);
    } else {
      NoLines();
    }
  }

  lemma NoLines()
    ensures Lines([]) == []
  {
  }

  /** Exactly 32,000,000 bytes: as 8 lines of the greatest length they are refused for their
      size, as 10,000 lines they are within all bounds, and so are 7 of the 8 lines. */
  lemma FullSourceIsTruncated()
    ensures |Block(MAX_RECORD_BYTES, 8)| == MAX_SOURCE_BYTES == |Block(3_200, MAX_RECORDS)|
    ensures !WithinBounds(Block(MAX_RECORD_BYTES, 8))
    ensures WithinBounds(Block(3_200, MAX_RECORDS)) && WithinBounds(Block(MAX_RECORD_BYTES, 7))
  {
    hide Block, Lines;
    BlockSize(MAX_RECORD_BYTES, 8);
    BlockSize(3_200, MAX_RECORDS);
    BlockSize(MAX_RECORD_BYTES, 7);
    BlockLines(MAX_RECORD_BYTES, 8);
    BlockLines(3_200, MAX_RECORDS);
    BlockLines(MAX_RECORD_BYTES, 7);
  }

  // What a passed capture means.

  /** The selector followed by the encoder; failures of either keep no line. */
  function Projected(encode: Json -> Option<Bytes>): Projection {
    (v: Json) => var r := ProjectRecord(v);
                 if r.Err? || r.value.None? then None
                 else
                   var text := encode(r.value.value);
                   if text.None? then None else Some(text.value + [LF])
  }

  function Lined(values: seq<Json>, project: Projection): (r: seq<Bytes>)
    requires forall i | 0 <= i < |values| :: project(values[i]).Some?
    ensures |r| == |values| && forall i | 0 <= i < |values| :: r[i] == project(values[i]).value
  {
    seq(|values|, i requires 0 <= i < |values| => project(values[i]).value)
  }

  lemma {:induction false} ConcatSnoc(parts: seq<Bytes>, last: Bytes)
    ensures Concat(parts + [last]) == Concat(parts) + last
  {
    if parts == [] {
      assert [] + [last] == [last] && [last][1..] == [];
      assert Concat([last]) == last + Concat([]);
    } else {
      ConcatSnoc(parts[1..], last);
      assert (parts + [last])[1..] == parts[1..] + [last];
    }
  }

  lemma {:induction false} SelectedAll(values: seq<Json>, project: Projection)
    requires forall i | 0 <= i < |values| :: project(values[i]).Some?
    ensures Selected(values, project) == Concat(Lined(values, project))
  {
    if values == [] {
      assert Lined(values, project) == [];
    } else {
      var before := values[..|values| - 1];
      assert forall i | 0 <= i < |before| :: before[i] == values[i];
      SelectedAll(before, project);
      assert Lined(values, project) == Lined(before, project) + [project(values[|values| - 1]).value];
      ConcatSnoc(Lined(before, project), project(values[|values| - 1]).value);
    }
  }

  /** A passed capture, in full: all of the stream was read, every line is one record, the content
      is all projections in order; identities are pairwise distinct and chained; the session
      starts once, first, and ends once, last. */
  lemma CompleteTraceMeans(data: Bytes, values: seq<Json>, run: Run, decode: Bytes -> Option<Json>,
                           project: Projection, maxOutput: nat)
    requires CompleteTrace(data, values, run, decode, project, maxOutput)
    ensures Concat(Lines(data)) == data && |Lines(data)| == |values| > 0
    ensures forall i | 0 <= i < |values| :: decode(Lines(data)[i]) == Some(values[i]) && project(values[i]).Some?
    ensures Selected(values, project) == Concat(Lined(values, project)) && |Concat(Lined(values, project))| <= maxOutput
    ensures forall i, j | 0 <= i < j < |values| :: GetOrNull(values[i], "uuid") != GetOrNull(values[j], "uuid")
    ensures forall i | 0 < i < |values| :: GetOrNull(values[i], "parentUuid") == GetOrNull(values[i - 1], "uuid")
    ensures forall i | 0 <= i < |values| :: IsType(values[i], "session_end") <==> i == |values| - 1
    ensures forall i | 0 <= i < |values| :: IsType(values[i], "session_start") <==> i == 0
  {
    hide Lines, IsUuid, Concat, Selected, Lined;
    LinesConcat(data);
    SelectedAll(values, project);
    forall i, j | 0 <= i < j < |values| ensures GetOrNull(values[i], "uuid") != GetOrNull(values[j], "uuid") {
      assert InOrder(values, j, run);
    }
    forall i | 0 <= i < |values| ensures IsType(values[i], "session_end") <==> i == |values| - 1 {
      if i + 1 < |values| { assert InOrder(values, i + 1, run); }
    }
    forall i | 0 <= i < |values| ensures IsType(values[i], "session_start") <==> i == 0 {
      assert InOrder(values, i, run);
    }
    forall i | 0 < i < |values| ensures GetOrNull(values[i], "parentUuid") == GetOrNull(values[i - 1], "uuid") {
      assert InOrder(values, i, run);
    }
  }

  /** Records that show the same are projected to the same lines. */
  lemma {:induction false} SelectionIsConfined(values: seq<Json>, others: seq<Json>, encode: Json -> Option<Bytes>)
    requires |values| == |others| && forall i | 0 <= i < |values| :: Shown(values[i]) == Shown(others[i])
    ensures Selected(values, Projected(encode)) == Selected(others, Projected(encode))
  {
    hide Shown, ProjectRecord;
    if values != [] {
      var n := |values| - 1;
      SelectionIsConfined(values[..n], others[..n], encode);
      HiddenFieldsNeverMatter(values[n], others[n]);
    }
  }

  /** Line by line, the records of two streams show the same. */
  ghost predicate ShowAlike(data: Bytes, other: Bytes, decode: Bytes -> Option<Json>) {
    && |Lines(data)| == |Lines(other)|
    && forall i | 0 <= i < |Lines(data)| ::
         var v, w := decode(Lines(data)[i]), decode(Lines(other)[i]);
         v.Some? && w.Some? ==> Shown(v.value) == Shown(w.value)
  }

  /** Two passed captures of streams that show the same hold the same bytes, whatever else the
      records contain; each may belong to a run of its own. */
  lemma CaptureIsConfined(data: Bytes, values: seq<Json>, capture: Capture, run: Run,
                          other: Bytes, others: seq<Json>, otherCapture: Capture, otherRun: Run,
                          decode: Bytes -> Option<Json>, encode: Json -> Option<Bytes>, maxOutput: nat)
    requires Sound(data, values, capture, run, decode, Projected(encode), maxOutput) && capture.passed
    requires Sound(other, others, otherCapture, otherRun, decode, Projected(encode), maxOutput) && otherCapture.passed
    requires ShowAlike(data, other, decode)
    ensures capture.content == otherCapture.content
  {
    hide Lines, Shown, Selected, Projected, Chained, Incomplete, RetainedCount, WithinBounds;
    forall i | 0 <= i < |values| ensures Shown(values[i]) == Shown(others[i]) {
      assert decode(Lines(data)[i]) == Some(values[i]) && decode(Lines(other)[i]) == Some(others[i]);
    }
    SelectionIsConfined(values, others, encode);
  }
}
