/** A passed capture, from end to end: which streams are one session of a run, and what each line
    of the content shows of its record. */
module TraceSession {
  import opened Json
  import opened TraceRecord
  import opened TraceProjector
  import opened TraceContents

  /** Thirty-six characters: hyphens at four places, lower-case hexadecimal digits elsewhere. */
  predicate UuidForm(s: string) {
    && |s| == 36
    && forall k | 0 <= k < 36 ::
         if k == 8 || k == 13 || k == 18 || k == 23 then s[k] == '-'
         else '0' <= s[k] <= '9' || s[k] in "abcdef"
  }

  lemma UuidExactly(s: string)
    ensures IsUuid(s) <==> UuidForm(s)
  {
    if |s| == 36 {
      HexExactly(s[..8]);
      HexExactly(s[9..13]);
      HexExactly(s[14..18]);
      HexExactly(s[19..23]);
      HexExactly(s[24..]);
      hide LowerHex;
      assert forall k | 0 <= k < 8 :: s[..8][k] == s[k];
      assert forall k | 9 <= k < 13 :: s[9..13][k - 9] == s[k];
      assert forall k | 14 <= k < 18 :: s[14..18][k - 14] == s[k];
      assert forall k | 19 <= k < 23 :: s[19..23][k - 19] == s[k];
      assert forall k | 24 <= k < 36 :: s[24..][k - 24] == s[k];
    }
  }

  lemma HexExactly(s: string)
    ensures LowerHex(s) <==> forall k | 0 <= k < |s| :: '0' <= s[k] <= '9' || s[k] in "abcdef"
  {
    var letters := "abcdef";
    assert letters[0] == 'a' && letters[1] == 'b' && letters[2] == 'c' && letters[3] == 'd' && letters[4] == 'e'
           && letters[5] == 'f';
  }

  /** The first record opens the session of this run, on its range and repository. */
  predicate Opens(v: Json, run: Run) {
    && v.Obj? && Says(v, "type", "session_start") && Says(v, "reviewMode", "range")
    && Says(v, "diffFrom", run.base) && Says(v, "diffTo", run.head) && Says(v, "cwd", run.repository)
  }

  predicate Says(v: Json, key: string, text: string) { v.Obj? && Get(v, key) == Some(Str(text)) }

  /** The identities of the records, each a UUID, no two the same. */
  predicate Identities(values: seq<Json>, ids: seq<string>) {
    && |ids| == |values|
    && (forall i | 0 <= i < |values| :: Says(values[i], "uuid", ids[i]) && UuidForm(ids[i]))
    && (forall i, j | 0 <= i < j < |ids| :: ids[i] != ids[j])
  }

  /** One session of a run: it opens once, at the start, ends at most once, at the end, and every
      record names the one before it as its parent. */
  ghost predicate OneSession(values: seq<Json>, run: Run) {
    && (forall i | 0 <= i < |values| :: Says(values[i], "sessionId", run.session))
    && (values != [] ==> Opens(values[0], run) && GetOrNull(values[0], "parentUuid") == Null)
    && (forall i | 0 < i < |values| :: !Says(values[i], "type", "session_start"))
    && (forall i | 0 <= i < |values| - 1 :: !Says(values[i], "type", "session_end"))
    && exists ids :: && Identities(values, ids)
                     && forall i | 0 < i < |values| :: Says(values[i], "parentUuid", ids[i - 1])
  }

  lemma ReadsText(v: Json, key: string, text: string)
    ensures Says(v, key, text) <==> GetOrNull(v, key) == Str(text)
  {
  }

  lemma OpensAsHeader(v: Json, run: Run)
    requires v.Obj?
    ensures Opens(v, run) <==> IsHeader(v, run)
  {
    ReadsText(v, "type", "session_start");
    ReadsText(v, "reviewMode", "range");
    ReadsText(v, "diffFrom", run.base);
    ReadsText(v, "diffTo", run.head);
    ReadsText(v, "cwd", run.repository);
  }

  /** The chain contract of the scan is that the records are one session of the run. */
  lemma ChainedExactly(values: seq<Json>, run: Run)
    ensures Chained(values, run) <==> OneSession(values, run)
  {
    hide InOrder, OneSession;
    if Chained(values, run) { ChainIsSession(values, run); }
    if OneSession(values, run) { SessionIsChain(values, run); }
  }

  lemma ChainIsSession(values: seq<Json>, run: Run)
    requires Chained(values, run)
    ensures OneSession(values, run)
  {
    hide IsUuid, UuidForm, IsHeader, Opens;
    forall i | 0 <= i < |values| ensures GetOrNull(values[i], "uuid").Str? { assert InOrder(values, i, run); }
    var ids := seq(|values|, i requires 0 <= i < |values| => GetOrNull(values[i], "uuid").text);
    forall i | 0 <= i < |values|
      ensures Says(values[i], "sessionId", run.session) && Says(values[i], "uuid", ids[i]) && UuidForm(ids[i])
      ensures i > 0 ==> !Says(values[i], "type", "session_start")
      ensures i > 0 ==> Says(values[i], "parentUuid", ids[i - 1])
    {
      assert InOrder(values, i, run);
      UuidExactly(ids[i]);
    }
    forall i | 0 <= i < |values| - 1 ensures !Says(values[i], "type", "session_end") {
      assert InOrder(values, i + 1, run);
    }
    forall i, j | 0 <= i < j < |ids| ensures ids[i] != ids[j] { assert InOrder(values, j, run); }
    if values != [] {
      assert InOrder(values, 0, run);
      OpensAsHeader(values[0], run);
    }
    assert Identities(values, ids);
  }

  lemma SessionIsChain(values: seq<Json>, run: Run)
    requires OneSession(values, run)
    ensures Chained(values, run)
  {
    hide IsUuid, UuidForm, IsHeader, Opens, InOrder, Says;
    var ids :| Identities(values, ids) && forall i | 0 < i < |values| :: Says(values[i], "parentUuid", ids[i - 1]);
    forall i | 0 <= i < |values| ensures values[i].Obj? { SaysIsRead(values[i], "uuid", ids[i]); }
    forall i | 0 <= i < |values| ensures InOrder(values, i, run) { ContinuesInOrder(values, ids, i, run); }
  }

  lemma SaysIsRead(v: Json, key: string, text: string)
    ensures Says(v, key, text) ==> v.Obj? && GetOrNull(v, key) == Str(text)
  {
  }

  lemma ContinuesInOrder(values: seq<Json>, ids: seq<string>, i: nat, run: Run)
    requires i < |values| && OneSession(values, run) && Identities(values, ids)
    requires i > 0 ==> Says(values[i], "parentUuid", ids[i - 1])
    requires forall j | 0 <= j < |values| :: values[j].Obj?
    ensures InOrder(values, i, run)
  {
    hide IsUuid, UuidForm, IsHeader, Opens, Says, GetOrNull;
    UuidExactly(ids[i]);
    OpensAsHeader(values[0], run);
    ReadsText(values[i], "uuid", ids[i]);
    ReadsText(values[i], "sessionId", run.session);
    ReadsText(values[i], "type", "session_start");
    if i > 0 {
      ReadsText(values[i - 1], "type", "session_end");
      ReadsText(values[i], "parentUuid", ids[i - 1]);
      ReadsText(values[i - 1], "uuid", ids[i - 1]);
    }
    forall j | 0 <= j < i ensures GetOrNull(values[j], "uuid") != GetOrNull(values[i], "uuid") {
      ReadsText(values[j], "uuid", ids[j]);
    }
  }

  /** What a passed capture holds: the stream is one closed session within its limits, and each
      line of the content is the encoding of what its record shows. */
  lemma PassedCaptureShows(data: Bytes, values: seq<Json>, capture: Capture, run: Run,
                           decode: Bytes -> Option<Json>, encode: Json -> Option<Bytes>, maxOutput: nat)
    requires Sound(data, values, capture, run, decode, Projected(encode), maxOutput) && capture.passed
    ensures |data| <= 32_000_000 && 0 < |values| == |Lines(data)| <= 10_000
    ensures forall i | 0 <= i < |values| :: |Lines(data)[i]| <= 4_000_000 && decode(Lines(data)[i]) == Some(values[i])
    ensures forall i | 0 <= i < |values| :: IsLine(Lines(data)[i])
    ensures OneSession(values, run) && Says(values[|values| - 1], "type", "session_end")
    ensures exists lines: seq<Bytes>, shown: seq<Json> ::
              LinesShow(lines, shown, values, encode) && capture.content == Concat(lines)
  {
    hide Lines, IsUuid, Projected, Chained, OneSession, Concat, LinesShow, Selected;
    ChainedExactly(values, run);
    LinesAreLines(data);
    SelectedAll(values, Projected(encode));
    ReadsText(values[|values| - 1], "type", "session_end");
    var shown := AllShow(values, encode);
  }

  /** Bytes up to a line feed, which is byte 10. */
  predicate IsLine(line: Bytes) {
    line != [] && line[|line| - 1] == 10 && forall k | 0 <= k < |line| - 1 :: line[k] != 10
  }

  lemma {:induction false} LinesAreLines(data: Bytes)
    ensures forall i | 0 <= i < |Lines(data)| && Terminated(Lines(data)[i]) :: IsLine(Lines(data)[i])
    ensures Concat(Lines(data)) == data
  {
    LinesConcat(data);
    if data != [] {
      var n := LineLength(data);
      LinesAreLines(data[n..]);
      var first := data[..n];
      assert forall k | 0 <= k < n :: first[k] == data[k];
      assert Lines(data) == [first] + Lines(data[n..]);
    }
  }

  lemma AllShow(values: seq<Json>, encode: Json -> Option<Bytes>) returns (shown: seq<Json>)
    requires forall i | 0 <= i < |values| :: Projected(encode)(values[i]).Some?
    ensures LinesShow(Lined(values, Projected(encode)), shown, values, encode)
  {
    hide Projected, LineShows;
    shown := seq(|values|, i requires 0 <= i < |values| => ShownBy(values[i]));
    forall i | 0 <= i < |values|
      ensures LineShows(Lined(values, Projected(encode))[i], shown[i], values[i], encode)
    {
      ProjectedShows(values[i], encode);
    }
  }

  function ShownBy(v: Json): Json {
    match ProjectRecord(v)
    case Ok(Some(out)) => out
    case _ => Null
  }

  /** A line of content: the encoded fields that its record shows, and a line feed. */
  ghost predicate LineShows(line: Bytes, out: Json, v: Json, encode: Json -> Option<Bytes>) {
    && encode(out).Some? && line == encode(out).value + [10]
    && out.Obj? && v.Obj? && GetOrNull(v, "type").Str? && Copies(out, v, IDENTITY)
    && ShowsOf(out, v, GetOrNull(v, "type").text)
  }

  ghost predicate LinesShow(lines: seq<Bytes>, shown: seq<Json>, values: seq<Json>, encode: Json -> Option<Bytes>) {
    && |lines| == |shown| == |values|
    && forall i | 0 <= i < |values| :: LineShows(lines[i], shown[i], values[i], encode)
  }

  lemma ProjectedShows(v: Json, encode: Json -> Option<Bytes>)
    requires Projected(encode)(v).Some?
    ensures LineShows(Projected(encode)(v).value, ShownBy(v), v, encode)
  {
    hide ProjectRecord, ShowsOf, Copies;
    RecordShows(v);
  }
}
