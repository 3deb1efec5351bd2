/** The record selector of the trace: which fields of a native record it may copy. */
module TraceRecord {
  import opened Json

  const TRACE_SCHEMA := "ocr.native-trace/v1"
  const MAX_CALLS := 128
  const MAX_MESSAGES := 2_048

  const TASKS: set<string> :=
    {"grouping_task", "plan_task", "main_task", "review_filter_task", "re_location_task", "memory_compression_task"}
  const ROLES: set<string> := {"system", "user", "assistant", "tool", "developer"}

  predicate Has(v: Json, key: string) { v.Obj? && Get(v, key).Some? }

  function Value(v: Json, key: string): Json
    requires Has(v, key)
  {
    Get(v, key).value
  }

  predicate IsText(v: Json, key: string) { Has(v, key) && Value(v, key).Str? }

  predicate AreTexts(v: Json, keys: seq<string>) { forall k | k in keys :: IsText(v, k) }

  predicate IsCount(v: Json, key: string) { Has(v, key) && Value(v, key).Int? && Value(v, key).number >= 0 }

  /** The fields named by `keys` that the record has, in the order of `keys`. */
  function Pick(v: Json, keys: seq<string>): seq<Field> {
    if keys == [] then []
    else (if Has(v, keys[0]) then [Field(keys[0], Value(v, keys[0]))] else []) + Pick(v, keys[1..])
  }

  // Tool calls and messages.

  /** A call as OCR keeps it: flattened in responses, nested in messages. */
  function CallOf(call: Json, response: bool): Option<Json> {
    if !call.Obj? then None
    else
      var target := if response then Some(call) else Get(call, "function");
      if target.None? || !target.value.Obj? || !IsText(call, "id")
         || !IsText(target.value, "name") || !IsText(target.value, "arguments") then None
      else if !response && !(Has(call, "type") && Value(call, "type") == Str("function")) then None
      else Some(Obj([Field("id", Value(call, "id")), Field("type", Str("function")),
                     Field("function", Obj([Field("name", Value(target.value, "name")),
                                            Field("arguments", Value(target.value, "arguments"))]))]))
  }

  /** The results of a partial function on every item, or None if it fails on one. */
  function All(items: seq<Json>, f: Json -> Option<Json>): (r: Option<seq<Json>>)
    ensures r.Some? <==> forall i | 0 <= i < |items| :: f(items[i]).Some?
    ensures r.Some? ==> |r.value| == |items| && forall i | 0 <= i < |items| :: Some(r.value[i]) == f(items[i])
  {
    if items == [] then Some([])
    else
      var n := |items| - 1;
      var before, last := All(items[..n], f), f(items[n]);
      if before.Some? && last.Some? then Some(before.value + [last.value]) else None
  }

  function CallWith(response: bool): Json -> Option<Json> { (call: Json) => CallOf(call, response) }

  function CallsOf(value: Json, response: bool): Option<Json> {
    if value.Null? then Some(Arr([]))
    else if !value.Arr? || |value.items| > MAX_CALLS then None
    else
      var calls := All(value.items, CallWith(response));
      if calls.Some? then Some(Arr(calls.value)) else None
  }

  function MessageOf(message: Json): Option<Json> {
    if !IsText(message, "role") || Value(message, "role").text !in ROLES then None
    else
      var content := GetOrNull(message, "content");
      var calls := if Has(message, "tool_calls") then CallsOf(Value(message, "tool_calls"), false) else Some(Null);
      if !(content.Null? || content.Str?) || calls.None?
         || (Has(message, "tool_call_id") && !IsText(message, "tool_call_id")) then None
      else Some(Obj([Field("role", Value(message, "role")), Field("content", content)]
                    + Pick(message, ["tool_call_id"])
                    + (if Has(message, "tool_calls") then [Field("tool_calls", calls.value)] else [])))
  }

  function MessageFn(): Json -> Option<Json> { (message: Json) => MessageOf(message) }

  function MessagesOf(value: Json): Option<Json> {
    if !value.Arr? || |value.items| > MAX_MESSAGES then None
    else
      var messages := All(value.items, MessageFn());
      if messages.Some? then Some(Arr(messages.value)) else None
  }

  method ReadCalls(value: Json, response: bool) returns (r: Option<Json>)
    ensures r == CallsOf(value, response)
  {
    if value.Null? { return Some(Arr([])); }
    if !value.Arr? || |value.items| > MAX_CALLS { return None; }
    var result := [];
    for i := 0 to |value.items|
      invariant All(value.items[..i], CallWith(response)) == Some(result)
    {
      assert value.items[..i + 1][..i] == value.items[..i];
      var call := CallOf(value.items[i], response);
      if call.None? {
        assert CallWith(response)(value.items[i]).None?;
        return None;
      }
      result := result + [call.value];
    }
    assert value.items[..|value.items|] == value.items;
    return Some(Arr(result));
  }

  method ReadMessages(value: Json) returns (r: Option<Json>)
    ensures r == MessagesOf(value)
  {
    if !value.Arr? || |value.items| > MAX_MESSAGES { return None; }
    var result := [];
    for i := 0 to |value.items|
      invariant All(value.items[..i], MessageFn()) == Some(result)
    {
      assert value.items[..i + 1][..i] == value.items[..i];
      var message := MessageOf(value.items[i]);
      if message.None? {
        assert MessageFn()(value.items[i]).None?;
        return None;
      }
      result := result + [message.value];
    }
    assert value.items[..|value.items|] == value.items;
    return Some(Arr(result));
  }

  // Records.

  const COMMON := ["type", "sessionId", "uuid", "parentUuid", "timestamp"]
  const HEADER := ["reviewMode", "diffFrom", "diffTo", "model"]
  const TOOL := ["tool_name", "arguments", "result"]
  const CHECKPOINT := ["filePath", "oldPath", "newPath", "fingerprint", "error"]

  /** What a kind of record adds to the common fields; an error, nothing to keep, or its fields. */
  datatype Part = Invalid | Unselected | Kept(fields: seq<Field>)

  function TaskPart(v: Json, kind: string): Part {
    match kind
    case "llm_request" =>
      if !IsCount(v, "request_no") then Invalid
      else
        var messages := MessagesOf(GetOrNull(v, "messages"));
        if messages.None? then Invalid
        else Kept([Field("request_no", Value(v, "request_no")), Field("messages", messages.value)])
    case "llm_error" =>
      if !IsCount(v, "request_no") || !IsText(v, "error") then Invalid else Kept(Pick(v, ["request_no", "error"]))
    case "llm_response" =>
      if !IsText(v, "content") then Invalid
      else
        var calls := CallsOf(GetOrNull(v, "tool_calls"), true);
        if calls.None? then Invalid
        else Kept([Field("content", Value(v, "content")), Field("tool_calls", calls.value)])
    case _ =>
      if !AreTexts(v, TOOL) || !(Has(v, "ok") && Value(v, "ok").Bool?) then Invalid else Kept(Pick(v, TOOL + ["ok"]))
  }

  function KindPart(v: Json, kind: string): Part {
    match kind
    case "session_start" =>
      if !AreTexts(v, HEADER) then Invalid
      else Kept(Pick(v, HEADER) + [Field("schema_version", Str(TRACE_SCHEMA))])
    case "session_end" =>
      if !Has(v, "files_reviewed") || !Value(v, "files_reviewed").Arr?
         || !(forall p | p in Value(v, "files_reviewed").items :: p.Str?) || !IsCount(v, "llm_failures") then Invalid
      else Kept(Pick(v, ["files_reviewed", "llm_failures"]))
    case _ =>
      if kind in {"llm_request", "llm_response", "llm_error", "tool_call"} then
        if !IsText(v, "taskType") || Value(v, "taskType").text !in TASKS || !IsText(v, "filePath") then Invalid
        else
          var part := TaskPart(v, kind);
          if part.Kept? then Kept(Pick(v, ["filePath", "taskType"]) + part.fields) else part
      else if kind in {"review_item_done", "review_item_failed", "review_item_reused"} then
        if exists k | k in CHECKPOINT :: Has(v, k) && !IsText(v, k) then Invalid else Kept(Pick(v, CHECKPOINT))
      else Unselected
  }

  /** `project_record`: refused, not selected, or the fields it may show. */
  function ProjectRecord(v: Json): Result<Option<Json>> {
    if !IsText(v, "type") || !AreTexts(v, ["sessionId", "uuid", "timestamp"]) then Err
    else
      match KindPart(v, Value(v, "type").text)
      case Invalid => Err
      case Unselected => Ok(None)
      case Kept(fields) => Ok(Some(Obj(Pick(v, COMMON) + fields)))
  }

  // What the selector can see.

  /** An allow list with structure: whole values, named fields of an object, items of a list. */
  datatype Shape = Whole | Fields(allowed: map<string, Shape>) | Each(item: Shape)

  /** The value with everything outside the allow list removed. */
  function Strip(v: Json, s: Shape): Json
    decreases v, 1
  {
    match s
    case Whole => v
    case Fields(allowed) => if v.Obj? then Obj(StripFields(v, allowed, |v.fields|)) else v
    case Each(item) => if v.Arr? then Arr(StripItems(v, item, |v.items|)) else v
  }

  function StripFields(v: Json, allowed: map<string, Shape>, n: nat): seq<Field>
    requires v.Obj? && n <= |v.fields|
    decreases v, 0, n
  {
    if n == 0 then []
    else
      var key := v.fields[n - 1].key;
      StripFields(v, allowed, n - 1) +
        (if key in allowed then [Field(key, Strip(ChildAt(v, n - 1), allowed[key]))] else [])
  }

  function StripItems(v: Json, item: Shape, n: nat): (r: seq<Json>)
    requires v.Arr? && n <= |v.items|
    ensures |r| == n && forall i | 0 <= i < n :: r[i] == Strip(v.items[i], item)
    decreases v, 0, n
  {
    if n == 0 then [] else StripItems(v, item, n - 1) + [Strip(ChildAt(v, n - 1), item)]
  }

  function Wholes(keys: seq<string>): map<string, Shape> { map k | k in keys :: Whole }

  function CallShape(response: bool): Shape {
    if response then Fields(Wholes(["id", "name", "arguments"]))
    else Fields(map["id" := Whole, "type" := Whole, "function" := Fields(Wholes(["name", "arguments"]))])
  }

  function MessageShape(): Shape {
    Fields(map["role" := Whole, "content" := Whole, "tool_call_id" := Whole, "tool_calls" := Each(CallShape(false))])
  }

  const TASK := ["filePath", "taskType"]

  /** The allow list of each kind of record; kinds that are not selected show their identity only. */
  function Allowed(kind: string): map<string, Shape> {
    Wholes(COMMON) +
    match kind
    case "session_start" => Wholes(HEADER)
    case "session_end" => Wholes(["files_reviewed", "llm_failures"])
    case "llm_request" => Wholes(TASK + ["request_no"])["messages" := Each(MessageShape())]
    case "llm_error" => Wholes(TASK + ["request_no", "error"])
    case "llm_response" => Wholes(TASK + ["content"])["tool_calls" := Each(CallShape(true))]
    case "tool_call" => Wholes(TASK + TOOL + ["ok"])
    case "review_item_done" => Wholes(CHECKPOINT)
    case "review_item_failed" => Wholes(CHECKPOINT)
    case "review_item_reused" => Wholes(CHECKPOINT)
    case _ => map[]
  }

  function Shown(v: Json): Json {
    if IsText(v, "type") then Strip(v, Fields(Allowed(Value(v, "type").text))) else v
  }

  // The selector sees nothing else.

  lemma {:induction false} FindSnoc(fields: seq<Field>, f: Field, key: string)
    ensures Find(fields + [f], key) ==
            if Find(fields, key).Some? then Find(fields, key) else if f.key == key then Some(f.value) else None
  {
    if fields == [] {
      assert [] + [f] == [f];
    } else {
      FindSnoc(fields[1..], f, key);
      assert (fields + [f])[1..] == fields[1..] + [f];
    }
  }

  lemma {:induction false} StripFind(v: Json, allowed: map<string, Shape>, n: nat, key: string)
    requires v.Obj? && n <= |v.fields|
    ensures Find(StripFields(v, allowed, n), key) ==
            var found := Find(v.fields[..n], key);
            if key in allowed && found.Some? then Some(Strip(found.value, allowed[key])) else None
  {
    hide Strip, Find;
    if n == 0 {
      assert v.fields[..0] == [] && StripFields(v, allowed, 0) == [];
      NothingFound(key);
    } else {
      StripFind(v, allowed, n - 1, key);
      FindSnoc(v.fields[..n - 1], v.fields[n - 1], key);
      assert v.fields[..n] == v.fields[..n - 1] + [v.fields[n - 1]];
      var k := v.fields[n - 1].key;
      if k in allowed {
        FindSnoc(StripFields(v, allowed, n - 1), Field(k, Strip(v.fields[n - 1].value, allowed[k])), key);
      } else {
        assert StripFields(v, allowed, n) == StripFields(v, allowed, n - 1);
      }
    }
  }

  lemma NothingFound(key: string)
    ensures Find([], key) == None
  {
  }

  /** Looking a key up after stripping. */
  lemma StripGet(v: Json, allowed: map<string, Shape>, key: string)
    requires v.Obj?
    ensures var w := Strip(v, Fields(allowed));
            && w.Obj?
            && (Has(w, key) <==> Has(v, key) && key in allowed)
            && (Has(w, key) ==> Value(w, key) == Strip(Value(v, key), allowed[key]))
  {
    hide Find;
    StripFind(v, allowed, |v.fields|, key);
    assert v.fields[..|v.fields|] == v.fields;
  }

  /** Whole fields look the same before and after. */
  lemma WholeGet(v: Json, allowed: map<string, Shape>, keys: seq<string>)
    requires v.Obj? && forall k | k in keys :: k in allowed && allowed[k] == Whole
    ensures var w := Strip(v, Fields(allowed));
            && w.Obj?
            && (forall k | k in keys :: (Has(w, k) <==> Has(v, k)) && (Has(v, k) ==> Value(w, k) == Value(v, k)))
            && (AreTexts(w, keys) <==> AreTexts(v, keys))
            && Pick(w, keys) == Pick(v, keys)
    decreases |keys|
  {
    var w := Strip(v, Fields(allowed));
    forall k | k in keys ensures (Has(w, k) <==> Has(v, k)) && (Has(v, k) ==> Value(w, k) == Value(v, k)) {
      StripGet(v, allowed, k);
    }
    StripGet(v, allowed, "");
    if keys != [] { WholeGet(v, allowed, keys[1..]); }
  }

  lemma FlatCallSees(call: Json)
    ensures CallOf(Strip(call, CallShape(true)), true) == CallOf(call, true)
  {
    hide Strip, Pick;
    var keys := ["id", "name", "arguments"];
    assert keys[0] == "id" && keys[1] == "name" && keys[2] == "arguments";
    if call.Obj? {
      WholeGet(call, Wholes(keys), keys);
    } else {
      StripOther(call, Wholes(keys));
    }
  }

  lemma StripOther(v: Json, allowed: map<string, Shape>)
    requires !v.Obj?
    ensures Strip(v, Fields(allowed)) == v
  {
  }

  lemma NestedCallSees(call: Json)
    ensures CallOf(Strip(call, CallShape(false)), false) == CallOf(call, false)
  {
    hide Strip, Pick;
    var inner := Wholes(["name", "arguments"]);
    var allowed := map["id" := Whole, "type" := Whole, "function" := Fields(inner)];
    assert CallShape(false) == Fields(allowed);
    if call.Obj? {
      KeepsWhole(call, allowed, "id");
      KeepsWhole(call, allowed, "type");
      StripGet(call, allowed, "function");
      if Has(call, "function") {
        var target := Value(call, "function");
        assert ["name", "arguments"][0] == "name" && ["name", "arguments"][1] == "arguments";
        if target.Obj? {
          KeepsWhole(target, inner, "name");
          KeepsWhole(target, inner, "arguments");
        } else {
          StripOther(target, inner);
        }
      }
    } else {
      StripOther(call, allowed);
    }
  }

  lemma KeepsWhole(v: Json, allowed: map<string, Shape>, key: string)
    requires v.Obj? && key in allowed && allowed[key] == Whole
    ensures var w := Strip(v, Fields(allowed));
            && w.Obj? && (Has(w, key) <==> Has(v, key)) && (Has(v, key) ==> Value(w, key) == Value(v, key))
            && (IsText(w, key) <==> IsText(v, key)) && (IsCount(w, key) <==> IsCount(v, key))
            && GetOrNull(w, key) == GetOrNull(v, key)
  {
    StripGet(v, allowed, key);
  }

  lemma {:induction false} AllSame(a: seq<Json>, b: seq<Json>, f: Json -> Option<Json>)
    requires |a| == |b| && forall i | 0 <= i < |a| :: f(a[i]) == f(b[i])
    ensures All(a, f) == All(b, f)
  {
    if a != [] {
      AllSame(a[..|a| - 1], b[..|b| - 1], f);
    }
  }

  lemma CallsSee(value: Json, response: bool)
    ensures CallsOf(Strip(value, Each(CallShape(response))), response) == CallsOf(value, response)
  {
    hide CallOf, CallShape;
    if value.Arr? {
      var stripped := StripItems(value, CallShape(response), |value.items|);
      forall i | 0 <= i < |value.items| ensures CallOf(stripped[i], response) == CallOf(value.items[i], response) {
        if response { FlatCallSees(value.items[i]); } else { NestedCallSees(value.items[i]); }
      }
      AllSame(stripped, value.items, CallWith(response));
    }
  }

  const MESSAGE := map["role" := Whole, "content" := Whole, "tool_call_id" := Whole,
                       "tool_calls" := Each(CallShape(false))]

  lemma MessageSees(message: Json)
    ensures MessageOf(Strip(message, MessageShape())) == MessageOf(message)
  {
    hide Strip, CallsOf, CallShape, ROLES;
    assert MessageShape() == Fields(MESSAGE);
    if message.Obj? {
      KeepsWhole(message, MESSAGE, "role");
      KeepsWhole(message, MESSAGE, "content");
      KeepsWhole(message, MESSAGE, "tool_call_id");
      StripGet(message, MESSAGE, "tool_calls");
      PickOne(message, "tool_call_id");
      PickOne(Strip(message, Fields(MESSAGE)), "tool_call_id");
      if Has(message, "tool_calls") { CallsSee(Value(message, "tool_calls"), false); }
    } else {
      StripOther(message, MESSAGE);
    }
  }

  lemma PickOne(v: Json, key: string)
    ensures Pick(v, [key]) == if Has(v, key) then [Field(key, Value(v, key))] else []
  {
    assert [key][1..] == [];
    assert Pick(v, []) == [];
  }

  lemma MessagesSee(value: Json)
    ensures MessagesOf(Strip(value, Each(MessageShape()))) == MessagesOf(value)
  {
    hide MessageOf, MessageShape;
    if value.Arr? {
      var stripped := StripItems(value, MessageShape(), |value.items|);
      forall i | 0 <= i < |value.items| ensures MessageOf(stripped[i]) == MessageOf(value.items[i]) {
        MessageSees(value.items[i]);
      }
      AllSame(stripped, value.items, MessageFn());
    }
  }

  lemma NestedGet(v: Json, allowed: map<string, Shape>, key: string)
    requires v.Obj? && key in allowed && allowed[key].Each?
    ensures GetOrNull(Strip(v, Fields(allowed)), key) == Strip(GetOrNull(v, key), allowed[key])
  {
    StripGet(v, allowed, key);
  }

  /** The allow list of a kind shows the common fields and its own, whole unless they are lists of
      messages or calls. */
  lemma Shows(kind: string, keys: seq<string>)
    requires match kind
             case "session_start" => keys == HEADER
             case "session_end" => keys == ["files_reviewed", "llm_failures"]
             case "llm_request" => keys == TASK + ["request_no"]
             case "llm_error" => keys == TASK + ["request_no", "error"]
             case "llm_response" => keys == TASK + ["content"]
             case "tool_call" => keys == TASK + TOOL + ["ok"]
             case "review_item_done" => keys == CHECKPOINT
             case "review_item_failed" => keys == CHECKPOINT
             case "review_item_reused" => keys == CHECKPOINT
             case _ => keys == []
    ensures var a := Allowed(kind);
            && (forall k | k in COMMON :: k in a && a[k] == Whole)
            && (forall k | k in keys :: k in a && a[k] == Whole)
  {
  }

  lemma HeaderSees(v: Json)
    requires v.Obj?
    ensures KindPart(Strip(v, Fields(Allowed("session_start"))), "session_start") == KindPart(v, "session_start")
  {
    hide Strip, Allowed, Pick, AreTexts;
    Shows("session_start", HEADER);
    WholeGet(v, Allowed("session_start"), HEADER);
  }

  lemma EndSees(v: Json)
    requires v.Obj?
    ensures KindPart(Strip(v, Fields(Allowed("session_end"))), "session_end") == KindPart(v, "session_end")
  {
    hide Strip, Allowed, Pick, Has, Value;
    var keys := ["files_reviewed", "llm_failures"];
    Shows("session_end", keys);
    WholeGet(v, Allowed("session_end"), keys);
    assert keys[0] == "files_reviewed" && keys[1] == "llm_failures";
  }

  predicate IsTask(kind: string) { kind in {"llm_request", "llm_response", "llm_error", "tool_call"} }

  function TaskKeys(kind: string): seq<string> {
    match kind
    case "llm_request" => ["request_no"]
    case "llm_error" => ["request_no", "error"]
    case "llm_response" => ["content"]
    case _ => TOOL + ["ok"]
  }

  lemma TaskShows(kind: string)
    requires IsTask(kind)
    ensures forall k | k in TASK :: k in Allowed(kind) && Allowed(kind)[k] == Whole
    ensures forall k | k in TaskKeys(kind) :: k in Allowed(kind) && Allowed(kind)[k] == Whole
  {
    Shows(kind, TASK + TaskKeys(kind));
    assert forall k | k in TASK :: k in TASK + TaskKeys(kind);
    assert forall k | k in TaskKeys(kind) :: k in TASK + TaskKeys(kind);
    assert TASK + TOOL + ["ok"] == TASK + (TOOL + ["ok"]);
  }

  lemma TaskPartSees(v: Json, kind: string)
    requires v.Obj? && IsTask(kind)
    ensures TaskPart(Strip(v, Fields(Allowed(kind))), kind) == TaskPart(v, kind)
  {
    match kind
    case "llm_request" => RequestSees(v);
    case "llm_error" => ErrorSees(v);
    case "llm_response" => ResponseSees(v);
    case "tool_call" => ToolSees(v);
  }

  lemma RequestSees(v: Json)
    requires v.Obj?
    ensures TaskPart(Strip(v, Fields(Allowed("llm_request"))), "llm_request") == TaskPart(v, "llm_request")
  {
    hide Strip, MessagesOf, MessageShape, Pick;
    TaskShows("llm_request");
    assert ["request_no"][0] == "request_no";
    KeepsWhole(v, Allowed("llm_request"), "request_no");
    NestedGet(v, Allowed("llm_request"), "messages");
    MessagesSee(GetOrNull(v, "messages"));
  }

  lemma ErrorSees(v: Json)
    requires v.Obj?
    ensures TaskPart(Strip(v, Fields(Allowed("llm_error"))), "llm_error") == TaskPart(v, "llm_error")
  {
    hide Strip, Allowed, Pick;
    TaskShows("llm_error");
    var keys := ["request_no", "error"];
    assert keys[0] == "request_no" && keys[1] == "error";
    WholeGet(v, Allowed("llm_error"), keys);
  }

  lemma ResponseSees(v: Json)
    requires v.Obj?
    ensures TaskPart(Strip(v, Fields(Allowed("llm_response"))), "llm_response") == TaskPart(v, "llm_response")
  {
    hide Strip, CallsOf, CallShape, Pick;
    TaskShows("llm_response");
    assert ["content"][0] == "content";
    KeepsWhole(v, Allowed("llm_response"), "content");
    NestedGet(v, Allowed("llm_response"), "tool_calls");
    CallsSee(GetOrNull(v, "tool_calls"), true);
  }

  lemma ToolSees(v: Json)
    requires v.Obj?
    ensures TaskPart(Strip(v, Fields(Allowed("tool_call"))), "tool_call") == TaskPart(v, "tool_call")
  {
    hide Strip, Allowed, Pick, AreTexts;
    TaskShows("tool_call");
    var keys := TOOL + ["ok"];
    assert keys[3] == "ok";
    WholeGet(v, Allowed("tool_call"), keys);
    assert forall k | k in TOOL :: k in keys;
    WholeGet(v, Allowed("tool_call"), TOOL);
  }

  lemma TaskSees(v: Json, kind: string)
    requires v.Obj? && IsTask(kind)
    ensures KindPart(Strip(v, Fields(Allowed(kind))), kind) == KindPart(v, kind)
  {
    hide Strip, Allowed, TaskPart, Pick, Has, Value;
    TaskShows(kind);
    WholeGet(v, Allowed(kind), TASK);
    assert TASK[0] == "filePath" && TASK[1] == "taskType";
    TaskPartSees(v, kind);
  }

  lemma CheckpointSees(v: Json, kind: string)
    requires v.Obj? && kind in {"review_item_done", "review_item_failed", "review_item_reused"}
    ensures KindPart(Strip(v, Fields(Allowed(kind))), kind) == KindPart(v, kind)
  {
    hide Strip, Pick, Has, Value, Allowed;
    Shows(kind, CHECKPOINT);
    WholeGet(v, Allowed(kind), CHECKPOINT);
    forall k | k in CHECKPOINT
      ensures IsText(Strip(v, Fields(Allowed(kind))), k) <==> IsText(v, k)
    {
      KeepsWhole(v, Allowed(kind), k);
    }
  }

  lemma KindSees(v: Json, kind: string)
    requires v.Obj?
    ensures KindPart(Strip(v, Fields(Allowed(kind))), kind) == KindPart(v, kind)
    ensures forall k | k in COMMON :: k in Allowed(kind) && Allowed(kind)[k] == Whole
  {
    hide Strip, Pick, TaskPart;
    match kind
    case "session_start" => HeaderSees(v); Shows(kind, HEADER);
    case "session_end" => EndSees(v); Shows(kind, ["files_reviewed", "llm_failures"]);
    case "llm_request" => TaskSees(v, kind); Shows(kind, TASK + ["request_no"]);
    case "llm_error" => TaskSees(v, kind); Shows(kind, TASK + ["request_no", "error"]);
    case "llm_response" => TaskSees(v, kind); Shows(kind, TASK + ["content"]);
    case "tool_call" => TaskSees(v, kind); Shows(kind, TASK + TOOL + ["ok"]);
    case "review_item_done" => CheckpointSees(v, kind); Shows(kind, CHECKPOINT);
    case "review_item_failed" => CheckpointSees(v, kind); Shows(kind, CHECKPOINT);
    case "review_item_reused" => CheckpointSees(v, kind); Shows(kind, CHECKPOINT);
    case _ => Shows(kind, []);
  }

  /** Confinement: the selector gives the same answer for a record and for what its allow list
      shows of it, so no other field, at any depth, can reach the projection. */
  lemma SelectorSeesOnlyShown(v: Json)
    ensures ProjectRecord(Shown(v)) == ProjectRecord(v)
  {
    hide Strip, KindPart, Pick, Allowed, Has, Value;
    ObjectsHave(v, "type");
    if IsText(v, "type") {
      var kind := Value(v, "type").text;
      KindSees(v, kind);
      assert COMMON[0] == "type" && COMMON[1] == "sessionId" && COMMON[2] == "uuid" && COMMON[4] == "timestamp";
      WholeGet(v, Allowed(kind), COMMON);
      WholeGet(v, Allowed(kind), ["sessionId", "uuid", "timestamp"]);
    }
  }

  lemma ObjectsHave(v: Json, key: string)
    ensures Has(v, key) ==> v.Obj?
  {
  }

  /** Two records that show the same are projected alike. */
  lemma HiddenFieldsNeverMatter(v: Json, w: Json)
    requires Shown(v) == Shown(w)
    ensures ProjectRecord(v) == ProjectRecord(w)
  {
    hide Shown, ProjectRecord;
    SelectorSeesOnlyShown(v);
    SelectorSeesOnlyShown(w);
  }
}
