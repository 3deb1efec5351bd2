/** What a selected trace record holds: field by field, what is copied from the native record, and
    which native records are accepted. */
module TraceContents {
  import opened Json
  import opened TraceRecord

  // Looking keys up in what was picked.

  lemma {:induction false} FindInPicked(v: Json, keys: seq<string>, rest: seq<Field>, k: string)
    ensures Find(Pick(v, keys) + rest, k) == if k in keys && Has(v, k) then Some(Value(v, k)) else Find(rest, k)
  {
    hide Has, Value;
    if keys == [] {
      assert Pick(v, keys) + rest == rest;
    } else {
      FindInPicked(v, keys[1..], rest, k);
      var more := Pick(v, keys[1..]) + rest;
      if Has(v, keys[0]) {
        assert Pick(v, keys) + rest == [Field(keys[0], Value(v, keys[0]))] + more;
        assert (Pick(v, keys) + rest)[1..] == more;
      } else {
        assert Pick(v, keys) + rest == more;
      }
    }
  }

  lemma FindInPair(f: Field, g: Field, k: string)
    ensures Find([f, g], k) == if f.key == k then Some(f.value) else if g.key == k then Some(g.value) else None
  {
    assert [f, g][1..] == [g];
    FindAlone(g, k);
  }

  lemma FindAlone(f: Field, k: string)
    ensures Find([f], k) == if f.key == k then Some(f.value) else None
  {
    assert [f][1..] == [];
  }

  lemma FindBehind(f: Field, g: Field, rest: seq<Field>, k: string)
    ensures Find([f, g] + rest, k) ==
            if f.key == k then Some(f.value) else if g.key == k then Some(g.value) else Find(rest, k)
  {
    var all := [f, g] + rest;
    assert all[1..] == [g] + rest && all[1..][1..] == rest;
  }

  /** The keys stand for the same in both objects. */
  predicate Copies(out: Json, v: Json, keys: seq<string>)
    requires out.Obj? && v.Obj?
  {
    forall k | k in keys :: Get(out, k) == Get(v, k)
  }

  /** The object has no other key. */
  ghost predicate OnlyKeys(out: Json, keys: seq<string>)
    requires out.Obj?
  {
    forall k: string :: Get(out, k).Some? ==> k in keys
  }

  predicate Texts(v: Json, keys: seq<string>)
    requires v.Obj?
  {
    forall k | k in keys :: Get(v, k).Some? && Get(v, k).value.Str?
  }

  predicate TextIn(v: Json, key: string, allowed: set<string>)
    requires v.Obj?
  {
    Get(v, key).Some? && Get(v, key).value.Str? && Get(v, key).value.text in allowed
  }

  predicate Counts(v: Json, key: string)
    requires v.Obj?
  {
    Get(v, key).Some? && Get(v, key).value.Int? && Get(v, key).value.number >= 0
  }

  // Tool calls.

  /** A flattened call names its function itself, a nested one in an object of its own. */
  predicate AcceptableCall(call: Json, response: bool) {
    && call.Obj? && Texts(call, ["id"])
    && if response then Texts(call, ["name", "arguments"])
       else && Get(call, "type") == Some(Str("function")) && GetOrNull(call, "function").Obj?
            && Texts(GetOrNull(call, "function"), ["name", "arguments"])
  }

  /** Identity, function name and arguments stay where they belong, and nothing is added. */
  ghost predicate ShowsCall(out: Json, call: Json, response: bool) {
    && AcceptableCall(call, response)
    && out.Obj? && OnlyKeys(out, ["id", "type", "function"])
    && Get(out, "id") == Get(call, "id") && Get(out, "type") == Some(Str("function"))
    && var f := GetOrNull(out, "function");
       && f.Obj? && OnlyKeys(f, ["name", "arguments"])
       && Copies(f, if response then call else GetOrNull(call, "function"), ["name", "arguments"])
  }

  lemma CallShows(call: Json, response: bool)
    ensures CallOf(call, response).Some? <==> AcceptableCall(call, response)
    ensures CallOf(call, response).Some? ==> ShowsCall(CallOf(call, response).value, call, response)
  {
    var names := ["name", "arguments"];
    assert names[0] == "name" && names[1] == "arguments" && ["id"][0] == "id";
    if CallOf(call, response).Some? { CallKeys(call, response); }
  }

  lemma CallKeys(call: Json, response: bool)
    requires CallOf(call, response).Some?
    ensures var out, target := CallOf(call, response).value, if response then call else GetOrNull(call, "function");
            && out.Obj? && OnlyKeys(out, ["id", "type", "function"])
            && Get(out, "id") == Get(call, "id") && Get(out, "type") == Some(Str("function"))
            && var f := GetOrNull(out, "function");
               && f.Obj? && target.Obj? && OnlyKeys(f, ["name", "arguments"])
               && Copies(f, target, ["name", "arguments"])
  {
    hide Find;
    var target := if response then call else GetOrNull(call, "function");
    var out := CallOf(call, response).value;
    var id, kind, f := out.fields[0], out.fields[1], out.fields[2];
    forall k: string
      ensures Get(out, k) == if k == "id" then Some(id.value) else if k == "type" then Some(kind.value)
                             else if k == "function" then Some(f.value) else None
    {
      assert out.fields == [id, kind] + [f];
      FindBehind(id, kind, [f], k);
      FindAlone(f, k);
    }
    forall k: string
      ensures Get(f.value, k) == if k == "name" || k == "arguments" then Get(target, k) else None
    {
      FindInPair(f.value.fields[0], f.value.fields[1], k);
    }
  }

  predicate AcceptableCalls(value: Json, response: bool) {
    value.Null? ||
    (value.Arr? && |value.items| <= 128 &&
     forall i | 0 <= i < |value.items| :: AcceptableCall(value.items[i], response))
  }

  ghost predicate ShowsCalls(out: Json, value: Json, response: bool) {
    && out.Arr?
    && if value.Null? then out.items == []
       else && value.Arr? && |out.items| == |value.items|
            && forall i | 0 <= i < |out.items| :: ShowsCall(out.items[i], value.items[i], response)
  }

  lemma CallsShow(value: Json, response: bool)
    ensures CallsOf(value, response).Some? <==> AcceptableCalls(value, response)
    ensures CallsOf(value, response).Some? ==> ShowsCalls(CallsOf(value, response).value, value, response)
  {
    hide CallOf, ShowsCall, AcceptableCall;
    if value.Arr? {
      forall i | 0 <= i < |value.items|
        ensures CallWith(response)(value.items[i]).Some? <==> AcceptableCall(value.items[i], response)
        ensures CallWith(response)(value.items[i]).Some? ==>
                  ShowsCall(CallWith(response)(value.items[i]).value, value.items[i], response)
      {
        CallShows(value.items[i], response);
      }
    }
  }

  // Messages.

  predicate AcceptableMessage(message: Json) {
    && message.Obj? && TextIn(message, "role", {"system", "user", "assistant", "tool", "developer"})
    && (GetOrNull(message, "content").Null? || GetOrNull(message, "content").Str?)
    && (Get(message, "tool_call_id").None? || Texts(message, ["tool_call_id"]))
    && (Get(message, "tool_calls").Some? ==> AcceptableCalls(Get(message, "tool_calls").value, false))
  }

  ghost predicate ShowsMessage(out: Json, message: Json) {
    && AcceptableMessage(message) && out.Obj?
    && OnlyKeys(out, ["role", "content", "tool_call_id", "tool_calls"])
    && Copies(out, message, ["role", "tool_call_id"])
    && Get(out, "content") == Some(GetOrNull(message, "content"))
    && (Get(out, "tool_calls").Some? <==> Get(message, "tool_calls").Some?)
    && (Get(out, "tool_calls").Some? ==>
          ShowsCalls(Get(out, "tool_calls").value, Get(message, "tool_calls").value, false))
  }

  lemma MessageShows(message: Json)
    ensures MessageOf(message).Some? <==> AcceptableMessage(message)
    ensures MessageOf(message).Some? ==> ShowsMessage(MessageOf(message).value, message)
  {
    hide CallsOf, ShowsCalls, AcceptableCalls;
    assert ["tool_call_id"][0] == "tool_call_id";
    if message.Obj? && Get(message, "tool_calls").Some? { CallsShow(Get(message, "tool_calls").value, false); }
    if MessageOf(message).Some? {
      MessageKeys(message);
    }
  }

  lemma MessageKeys(message: Json)
    requires MessageOf(message).Some?
    ensures var out := MessageOf(message).value;
            && out.Obj? && OnlyKeys(out, ["role", "content", "tool_call_id", "tool_calls"])
            && Copies(out, message, ["role", "tool_call_id"])
            && Get(out, "content") == Some(GetOrNull(message, "content"))
            && (Get(out, "tool_calls").Some? <==> Get(message, "tool_calls").Some?)
            && (Get(out, "tool_calls").Some? ==>
                  CallsOf(Get(message, "tool_calls").value, false) == Some(Get(out, "tool_calls").value))
  {
    hide CallsOf, Pick, Find;
    var out := MessageOf(message).value;
    var calls := if Has(message, "tool_calls")
                 then [Field("tool_calls", CallsOf(Value(message, "tool_calls"), false).value)] else [];
    var role, content := Field("role", Value(message, "role")), Field("content", GetOrNull(message, "content"));
    var rest := Pick(message, ["tool_call_id"]) + calls;
    assert out.fields == [role, content] + rest;
    forall k: string
      ensures Get(out, k) ==
              if k == "role" then Some(role.value) else if k == "content" then Some(content.value)
              else if k == "tool_call_id" && Has(message, k) then Some(Value(message, k))
              else if k == "tool_calls" && Has(message, k) then Some(calls[0].value) else None
    {
      FindBehind(role, content, rest, k);
      FindInPicked(message, ["tool_call_id"], calls, k);
      if calls != [] { FindAlone(calls[0], k); } else { FindNothing(k); }
    }
  }

  lemma FindNothing(k: string)
    ensures Find([], k) == None
  {
  }

  predicate AcceptableMessages(value: Json) {
    value.Arr? && |value.items| <= 2_048 && forall i | 0 <= i < |value.items| :: AcceptableMessage(value.items[i])
  }

  ghost predicate ShowsMessages(out: Json, value: Json) {
    && out.Arr? && value.Arr? && |out.items| == |value.items|
    && forall i | 0 <= i < |out.items| :: ShowsMessage(out.items[i], value.items[i])
  }

  lemma MessagesShow(value: Json)
    ensures MessagesOf(value).Some? <==> AcceptableMessages(value)
    ensures MessagesOf(value).Some? ==> ShowsMessages(MessagesOf(value).value, value)
  {
    hide MessageOf, ShowsMessage, AcceptableMessage;
    if value.Arr? {
      forall i | 0 <= i < |value.items|
        ensures MessageFn()(value.items[i]).Some? <==> AcceptableMessage(value.items[i])
        ensures MessageFn()(value.items[i]).Some? ==>
                  ShowsMessage(MessageFn()(value.items[i]).value, value.items[i])
      {
        MessageShows(value.items[i]);
      }
    }
  }

  // Records.

  const IDENTITY := ["type", "sessionId", "uuid", "parentUuid", "timestamp"]

  predicate AcceptableTask(v: Json, kind: string)
    requires v.Obj?
  {
    && TextIn(v, "taskType", {"grouping_task", "plan_task", "main_task", "review_filter_task",
                              "re_location_task", "memory_compression_task"})
    && Texts(v, ["filePath"])
    && match kind
       case "llm_request" => Counts(v, "request_no") && AcceptableMessages(GetOrNull(v, "messages"))
       case "llm_error" => Counts(v, "request_no") && Texts(v, ["error"])
       case "llm_response" => Texts(v, ["content"]) && AcceptableCalls(GetOrNull(v, "tool_calls"), true)
       case _ => Texts(v, ["tool_name", "arguments", "result"]) && GetOrNull(v, "ok").Bool?
  }

  /** What a record of each kind must have besides its identity. */
  predicate AcceptableOf(v: Json, kind: string)
    requires v.Obj?
  {
    if kind in {"llm_request", "llm_response", "llm_error", "tool_call"} then AcceptableTask(v, kind)
    else if kind in {"review_item_done", "review_item_failed", "review_item_reused"} then
      forall k | k in ["filePath", "oldPath", "newPath", "fingerprint", "error"] ::
        Get(v, k).Some? ==> Get(v, k).value.Str?
    else if kind == "session_start" then Texts(v, ["reviewMode", "diffFrom", "diffTo", "model"])
    else kind == "session_end" ==>
      && GetOrNull(v, "files_reviewed").Arr? && (forall p | p in GetOrNull(v, "files_reviewed").items :: p.Str?)
      && Counts(v, "llm_failures")
  }

  predicate AcceptableRecord(v: Json) {
    && v.Obj? && Texts(v, ["type", "sessionId", "uuid", "timestamp"])
    && AcceptableOf(v, GetOrNull(v, "type").text)
  }

  /** The fields of a selected record of each kind: copies of the native fields of the same name,
      apart from the schema version and the lists of messages and calls; nothing else. */
  ghost predicate ShowsOf(out: Json, v: Json, kind: string)
    requires out.Obj? && v.Obj?
  {
    match kind
    case "session_start" =>
      && Copies(out, v, ["reviewMode", "diffFrom", "diffTo", "model"])
      && Get(out, "schema_version") == Some(Str("ocr.native-trace/v1"))
      && OnlyKeys(out, IDENTITY + ["reviewMode", "diffFrom", "diffTo", "model", "schema_version"])
    case "session_end" =>
      && Copies(out, v, ["files_reviewed", "llm_failures"])
      && OnlyKeys(out, IDENTITY + ["files_reviewed", "llm_failures"])
    case "llm_request" =>
      && Copies(out, v, ["filePath", "taskType", "request_no"])
      && ShowsMessages(GetOrNull(out, "messages"), GetOrNull(v, "messages"))
      && OnlyKeys(out, IDENTITY + ["filePath", "taskType", "request_no", "messages"])
    case "llm_error" =>
      && Copies(out, v, ["filePath", "taskType", "request_no", "error"])
      && OnlyKeys(out, IDENTITY + ["filePath", "taskType", "request_no", "error"])
    case "llm_response" =>
      && Copies(out, v, ["filePath", "taskType", "content"])
      && ShowsCalls(GetOrNull(out, "tool_calls"), GetOrNull(v, "tool_calls"), true)
      && OnlyKeys(out, IDENTITY + ["filePath", "taskType", "content", "tool_calls"])
    case "tool_call" =>
      && Copies(out, v, ["filePath", "taskType", "tool_name", "arguments", "result", "ok"])
      && OnlyKeys(out, IDENTITY + ["filePath", "taskType", "tool_name", "arguments", "result", "ok"])
    case _ =>
      && Copies(out, v, ["filePath", "oldPath", "newPath", "fingerprint", "error"])
      && OnlyKeys(out, IDENTITY + ["filePath", "oldPath", "newPath", "fingerprint", "error"])
  }

  const SELECTED := {
    "session_start", "session_end", "llm_request", "llm_response", "llm_error", "tool_call",
    "review_item_done", "review_item_failed", "review_item_reused"
  }

  lemma TextsAsRead(v: Json, keys: seq<string>)
    requires v.Obj?
    ensures AreTexts(v, keys) <==> Texts(v, keys)
  {
    if AreTexts(v, keys) {
      forall k | k in keys ensures Get(v, k).Some? && Get(v, k).value.Str? { assert IsText(v, k); }
    }
    if Texts(v, keys) {
      forall k | k in keys ensures IsText(v, k) { assert Get(v, k).Some?; }
    }
  }

  lemma TaskAcceptance(v: Json, kind: string)
    requires v.Obj? && kind in {"llm_request", "llm_response", "llm_error", "tool_call"}
    ensures KindPart(v, kind).Kept? <==> AcceptableTask(v, kind)
    ensures !KindPart(v, kind).Unselected?
  {
    hide MessagesOf, AcceptableMessages, CallsOf, AcceptableCalls, Pick, AreTexts, Texts;
    MessagesShow(GetOrNull(v, "messages"));
    CallsShow(GetOrNull(v, "tool_calls"), true);
    TextsAsRead(v, TOOL);
    OneText(v, "filePath");
    OneText(v, "error");
    OneText(v, "content");
  }

  lemma PartAcceptance(v: Json, kind: string)
    requires v.Obj?
    ensures !KindPart(v, kind).Invalid? <==> AcceptableOf(v, kind)
    ensures !KindPart(v, kind).Invalid? ==> (KindPart(v, kind).Kept? <==> kind in SELECTED)
  {
    hide TaskPart, AcceptableTask, Pick, AreTexts, Texts;
    if kind in {"llm_request", "llm_response", "llm_error", "tool_call"} {
      hide KindPart;
      TaskAcceptance(v, kind);
    } else {
      TextsAsRead(v, HEADER);
      CheckpointTexts(v);
    }
  }

  /** Exactly the acceptable records pass the selector, and of those exactly the ones of the nine
      kinds are selected. */
  lemma RecordAcceptance(v: Json)
    ensures ProjectRecord(v).Ok? <==> AcceptableRecord(v)
    ensures AcceptableRecord(v) ==> (ProjectRecord(v).value.Some? <==> GetOrNull(v, "type").text in SELECTED)
  {
    hide KindPart, AcceptableOf, AreTexts, Texts, Pick;
    if v.Obj? {
      TextsAsRead(v, ["sessionId", "uuid", "timestamp"]);
      IdentityTexts(v);
      if IsText(v, "type") { PartAcceptance(v, Value(v, "type").text); }
    } else {
      NoTexts(v);
    }
  }

  lemma NoTexts(v: Json)
    requires !v.Obj?
    ensures !IsText(v, "type")
  {
  }

  lemma OneText(v: Json, key: string)
    requires v.Obj?
    ensures Texts(v, [key]) <==> IsText(v, key)
  {
    assert [key][0] == key;
  }

  lemma IdentityTexts(v: Json)
    requires v.Obj?
    ensures Texts(v, ["type", "sessionId", "uuid", "timestamp"]) <==>
            IsText(v, "type") && Texts(v, ["sessionId", "uuid", "timestamp"])
  {
    var short, long := ["sessionId", "uuid", "timestamp"], ["type", "sessionId", "uuid", "timestamp"];
    assert long == ["type"] + short;
    forall k ensures k in long <==> k == "type" || k in short {
    }
  }

  lemma CheckpointTexts(v: Json)
    requires v.Obj?
    ensures (exists k | k in CHECKPOINT :: Has(v, k) && !IsText(v, k)) <==>
            !forall k | k in ["filePath", "oldPath", "newPath", "fingerprint", "error"] ::
               Get(v, k).Some? ==> Get(v, k).value.Str?
  {
    if k :| k in CHECKPOINT && Has(v, k) && !IsText(v, k) {
      assert Get(v, k).Some?;
    } else {
      forall k | k in CHECKPOINT ensures Get(v, k).Some? ==> Get(v, k).value.Str? {
        assert !(Has(v, k) && !IsText(v, k));
      }
    }
  }

  /** What the record adds to its identity under a key. */
  function Added(v: Json, kind: string, k: string): Option<Json>
    requires v.Obj? && KindPart(v, kind).Kept?
  {
    match kind
    case "session_start" =>
      if k in ["reviewMode", "diffFrom", "diffTo", "model"] then Get(v, k)
      else if k == "schema_version" then Some(Str("ocr.native-trace/v1")) else None
    case "session_end" => if k in ["files_reviewed", "llm_failures"] then Get(v, k) else None
    case "llm_request" =>
      if k in ["filePath", "taskType", "request_no"] then Get(v, k)
      else if k == "messages" then MessagesOf(GetOrNull(v, k)) else None
    case "llm_error" => if k in ["filePath", "taskType", "request_no", "error"] then Get(v, k) else None
    case "llm_response" =>
      if k in ["filePath", "taskType", "content"] then Get(v, k)
      else if k == "tool_calls" then CallsOf(GetOrNull(v, k), true) else None
    case "tool_call" =>
      if k in ["filePath", "taskType", "tool_name", "arguments", "result", "ok"] then Get(v, k) else None
    case _ => if k in ["filePath", "oldPath", "newPath", "fingerprint", "error"] then Get(v, k) else None
  }

  lemma PartAdds(v: Json, kind: string, k: string)
    requires v.Obj? && KindPart(v, kind).Kept?
    ensures Find(KindPart(v, kind).fields, k) == Added(v, kind, k)
  {
    hide MessagesOf, CallsOf, Pick, Find;
    var fields := KindPart(v, kind).fields;
    assert Pick(v, CHECKPOINT) + [] == Pick(v, CHECKPOINT);
    FindNothing(k);
    match kind
    case "session_start" =>
      FindInPicked(v, HEADER, [Field("schema_version", Str(TRACE_SCHEMA))], k);
      FindAlone(Field("schema_version", Str(TRACE_SCHEMA)), k);
      TextsAsRead(v, HEADER);
    case "session_end" =>
      assert Pick(v, ["files_reviewed", "llm_failures"]) + [] == fields;
      FindInPicked(v, ["files_reviewed", "llm_failures"], [], k);
    case _ =>
      if kind in {"llm_request", "llm_response", "llm_error", "tool_call"} {
        TaskAdds(v, kind, k);
      } else {
        FindInPicked(v, CHECKPOINT, [], k);
      }
  }

  lemma TaskAdds(v: Json, kind: string, k: string)
    requires v.Obj? && KindPart(v, kind).Kept? && kind in {"llm_request", "llm_response", "llm_error", "tool_call"}
    ensures Find(KindPart(v, kind).fields, k) == Added(v, kind, k)
  {
    hide MessagesOf, CallsOf, Pick, Find;
    var part := TaskPart(v, kind).fields;
    FindNothing(k);
    FindInPicked(v, ["filePath", "taskType"], part, k);
    match kind
    case "llm_request" => FindInPair(part[0], part[1], k);
    case "llm_error" =>
      assert Pick(v, ["request_no", "error"]) + [] == part;
      FindInPicked(v, ["request_no", "error"], [], k);
    case "llm_response" => FindInPair(part[0], part[1], k);
    case _ =>
      assert Pick(v, TOOL + ["ok"]) + [] == part;
      FindInPicked(v, TOOL + ["ok"], [], k);
  }

  lemma RecordKey(v: Json, k: string)
    requires ProjectRecord(v).Ok? && ProjectRecord(v).value.Some?
    ensures v.Obj? && Get(v, "type").Some? && Get(v, "type").value.Str? && ProjectRecord(v).value.value.Obj?
    ensures var kind := Get(v, "type").value.text;
            && KindPart(v, kind).Kept?
            && Get(ProjectRecord(v).value.value, k) ==
               if k in IDENTITY && Has(v, k) then Get(v, k) else Added(v, kind, k)
  {
    hide KindPart, Pick, Find, Added;
    var kind := Get(v, "type").value.text;
    FindInPicked(v, COMMON, KindPart(v, kind).fields, k);
    PartAdds(v, kind, k);
  }

  /** Every selected record shows its own fields, each under its own name. */
  lemma RecordShows(v: Json)
    requires ProjectRecord(v).Ok? && ProjectRecord(v).value.Some?
    ensures var out := ProjectRecord(v).value.value;
            && v.Obj? && GetOrNull(v, "type").Str? && out.Obj? && Copies(out, v, IDENTITY)
            && ShowsOf(out, v, GetOrNull(v, "type").text)
  {
    hide KindPart, Find, Has, Added, Pick, AreTexts;
    RecordKey(v, "type");
    var out, kind := ProjectRecord(v).value.value, GetOrNull(v, "type").text;
    forall k: string
      ensures Get(out, k) == if k in IDENTITY && Has(v, k) then Get(v, k) else Added(v, kind, k)
    {
      RecordKey(v, k);
    }
    AddedShows(v, out, kind);
  }

  lemma AddedShows(v: Json, out: Json, kind: string)
    requires v.Obj? && out.Obj? && KindPart(v, kind).Kept?
    requires forall k: string :: Get(out, k) == if k in IDENTITY && Has(v, k) then Get(v, k) else Added(v, kind, k)
    ensures Copies(out, v, IDENTITY) && ShowsOf(out, v, kind)
  {
    hide Find, MessagesOf, CallsOf, ShowsMessages, ShowsCalls, Pick;
    if kind in {"llm_request", "llm_response", "llm_error", "tool_call"} { AddedTaskShows(v, out, kind); }
  }

  lemma AddedTaskShows(v: Json, out: Json, kind: string)
    requires v.Obj? && out.Obj? && KindPart(v, kind).Kept?
    requires kind in {"llm_request", "llm_response", "llm_error", "tool_call"}
    requires forall k: string :: Get(out, k) == if k in IDENTITY && Has(v, k) then Get(v, k) else Added(v, kind, k)
    ensures ShowsOf(out, v, kind)
  {
    hide Find, MessagesOf, CallsOf, ShowsMessages, ShowsCalls, Pick;
    MessagesShow(GetOrNull(v, "messages"));
    CallsShow(GetOrNull(v, "tool_calls"), true);
  }
}
