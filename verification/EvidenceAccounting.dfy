/** Tool usage per server, evidence-call attribution, and the hostile validator of both. */
module EvidenceAccounting {
  import opened Json
  import opened Collections

  const MAX_COUNT := 1_000_000_000

  const PRIMARY := "ocr_toolkit_evidence"
  const SEARCH := "ocr_toolkit_evidence_search"
  const COVERAGE := "ocr_toolkit_evidence_coverage"
  const DIAGRAM := "ocr_toolkit_review_diagram"
  const BUILTIN := PRIMARY
  const ACTIONS: set<string> := {"summary", "list", "get", "search", "coverage"}
  const BUCKETS: set<string> := {"summary", "list", "get", "search", "coverage", "unattributed"}

  type Counts = map<string, int>

  predicate Bounded(c: int) { 0 <= c <= MAX_COUNT }

  predicate AllBounded(counts: Counts) { forall k | k in counts :: Bounded(counts[k]) }

  // Evidence-call attribution.

  datatype Attribution = Unavailable | Verified(attempted: Counts, completed: Counts)

  /** How often each of the three evidence tools was called. */
  datatype ByTool = ByTool(primary: nat, search: nat, coverage: nat)

  function Calls(t: ByTool): nat { t.primary + t.search + t.coverage }

  datatype ActionCounts = ActionCounts(attempted: Counts, completed: Counts)

  function Zeros(keys: set<string>): Counts { map k | k in keys :: 0 }

  /** Six buckets and what they hold together. */
  function BucketSum(c: Counts): int
    requires c.Keys == BUCKETS
  {
    c["summary"] + c["list"] + c["get"] + c["search"] + c["coverage"] + c["unattributed"]
  }

  /** The completed actions together, or -1 for a value that cannot be read. */
  function Completed(v: Attribution): int {
    match v
    case Unavailable => 0
    case Verified(_, c) =>
      if c.Keys != ACTIONS || !AllBounded(c) then -1
      else c["summary"] + c["list"] + c["get"] + c["search"] + c["coverage"]
  }

  predicate Shaped(attempted: Counts, completed: Counts) {
    && attempted.Keys == BUCKETS && completed.Keys == ACTIONS
    && AllBounded(attempted) && AllBounded(completed)
    && forall a | a in ACTIONS :: completed[a] <= attempted[a]
  }

  function ReceivedPrimary(c: Counts): int
    requires c.Keys == BUCKETS
  {
    c["summary"] + c["list"] + c["get"] + c["unattributed"]
  }

  function Attribute(t: ByTool, counts: Option<ActionCounts>, mandatory: bool): Result<Attribution> {
    if counts.None? && Calls(t) > 0 then Err
    else
      var given := if counts.Some? then counts.value else ActionCounts(Zeros(BUCKETS), Zeros(ACTIONS));
      var attempted, completed := given.attempted, given.completed;
      if !Shaped(attempted, completed) || (mandatory && completed["summary"] < 1) then Err
      else
        var primary := ReceivedPrimary(attempted);
        if primary > t.primary || attempted["search"] > t.search || attempted["coverage"] > t.coverage then Err
        else
          var undispatched :=
            (t.primary - primary) + (t.search - attempted["search"]) + (t.coverage - attempted["coverage"]);
          Ok(Verified(attempted["unattributed" := attempted["unattributed"] + undispatched], completed))
  }

  /** What the validator accepts of a published attribution. */
  predicate ValidActions(v: Attribution, calls: int, mandatory: bool) {
    match v
    case Unavailable => calls == 0
    case Verified(attempted, completed) =>
      Shaped(attempted, completed) && BucketSum(attempted) == calls && (mandatory ==> completed["summary"] >= 1)
  }

  /** Nothing is lost between producer and validator: an accepted attribution holds exactly the
      evidence calls, and the validator accepts it exactly when its residual bucket fits. */
  lemma AttributionIsConserved(t: ByTool, counts: Option<ActionCounts>, mandatory: bool)
    requires Attribute(t, counts, mandatory).Ok?
    ensures var v := Attribute(t, counts, mandatory).value;
            && v.Verified? && v.attempted.Keys == BUCKETS && BucketSum(v.attempted) == Calls(t)
            && (ValidActions(v, Calls(t), mandatory) <==> v.attempted["unattributed"] <= MAX_COUNT)
            && (Calls(t) <= MAX_COUNT ==> ValidActions(v, Calls(t), mandatory))
  {
  }

  /** Calls that never arrived are attempts without an action: they change no other bucket and
      no completion. */
  lemma OnlyTheResidualGrows(t: ByTool, counts: ActionCounts, mandatory: bool)
    requires Attribute(t, Some(counts), mandatory).Ok?
    ensures var v := Attribute(t, Some(counts), mandatory).value;
            && v.completed == counts.completed
            && (forall a | a in ACTIONS :: v.attempted[a] == counts.attempted[a])
            && v.attempted["unattributed"] - counts.attempted["unattributed"] == Calls(t) - BucketSum(counts.attempted)
            && v.attempted["unattributed"] >= counts.attempted["unattributed"]
  {
  }

  // Usage per server.

  /** One entry of the result's per-tool telemetry, in its order. */
  datatype Entry = Entry(tool: string, count: int)

  predicate UniqueTools(calls: seq<Entry>) {
    forall i, j | 0 <= i < j < |calls| :: calls[i].tool != calls[j].tool
  }

  predicate Known(owners: map<string, string>, e: Entry) { e.tool in owners }

  predicate Admitted(owners: map<string, string>, e: Entry) {
    Known(owners, e) ==> e.count <= MAX_COUNT && (e.count > 0 || (e.tool == PRIMARY && e.count == 0))
  }

  /** All calls to the tools of one server. */
  function ServerTotal(calls: seq<Entry>, owners: map<string, string>, server: string): int {
    if calls == [] then 0
    else
      var last := calls[|calls| - 1];
      ServerTotal(calls[..|calls| - 1], owners, server) +
      (if last.tool in owners && owners[last.tool] == server then last.count else 0)
  }

  /** All calls to known tools. */
  function KnownTotal(calls: seq<Entry>, owners: map<string, string>): int {
    if calls == [] then 0
    else
      var last := calls[|calls| - 1];
      KnownTotal(calls[..|calls| - 1], owners) + (if last.tool in owners then last.count else 0)
  }

  predicate Serves(calls: seq<Entry>, owners: map<string, string>, server: string) {
    exists i | 0 <= i < |calls| :: calls[i].tool in owners && owners[calls[i].tool] == server
  }

  /** The usage table: every server that was called, with all of its calls. */
  ghost predicate IsUsage(usage: map<string, int>, calls: seq<Entry>, owners: map<string, string>) {
    forall server :: (server in usage <==> Serves(calls, owners, server))
                     && (server in usage ==> usage[server] == ServerTotal(calls, owners, server))
  }

  ghost function TableSum(usage: map<string, int>): int
    decreases usage.Keys
  {
    if usage == map[] then 0
    else
      var k :| k in usage;
      usage[k] + TableSum(usage - {k})
  }

  lemma {:induction false} TableSumRemove(usage: map<string, int>, k: string)
    requires k in usage
    ensures TableSum(usage) == usage[k] + TableSum(usage - {k})
    decreases usage.Keys
  {
    var first :| first in usage && TableSum(usage) == usage[first] + TableSum(usage - {first});
    if first != k {
      TableSumRemove(usage - {first}, k);
      TableSumRemove(usage - {k}, first);
      assert usage - {first} - {k} == usage - {k} - {first};
    }
  }

  /** Setting one entry moves the sum by exactly the difference. */
  lemma TableSumUpdate(usage: map<string, int>, k: string, value: int)
    ensures TableSum(usage[k := value]) == TableSum(usage) - (if k in usage then usage[k] else 0) + value
  {
    var next := usage[k := value];
    TableSumRemove(next, k);
    if k in usage {
      TableSumRemove(usage, k);
      assert next - {k} == usage - {k};
    } else {
      assert next - {k} == usage;
    }
  }

  function Get(usage: map<string, int>, server: string): int {
    if server in usage then usage[server] else 0
  }

  method SumValues(usage: map<string, int>) returns (total: int)
    ensures total == TableSum(usage)
  {
    var rest := usage;
    total := 0;
    while rest != map[]
      invariant total + TableSum(rest) == TableSum(usage)
      decreases rest.Keys
    {
      var k :| k in rest;
      TableSumRemove(rest, k);
      total, rest := total + rest[k], rest - {k};
    }
  }

  predicate AdmittedAll(calls: seq<Entry>, owners: map<string, string>) {
    forall i | 0 <= i < |calls| :: Admitted(owners, calls[i])
  }

  ghost predicate WithinBound(calls: seq<Entry>, owners: map<string, string>) {
    forall server :: ServerTotal(calls, owners, server) <= MAX_COUNT
  }

  /** The usage loop: it refuses exactly a bad count or a server over the bound, and otherwise
      its table adds up to the known calls. */
  method Aggregate(calls: seq<Entry>, owners: map<string, string>) returns (r: Result<map<string, int>>)
    ensures r.Ok? <==> AdmittedAll(calls, owners) && WithinBound(calls, owners)
    ensures r.Ok? ==> IsUsage(r.value, calls, owners) && TableSum(r.value) == KnownTotal(calls, owners)
  {
    hide ServerTotal, KnownTotal, Serves, TableSum;
    var usage: map<string, int> := map[];
    EmptyTotals(owners);
    for i := 0 to |calls|
      invariant AdmittedAll(calls[..i], owners) && WithinBound(calls[..i], owners)
      invariant IsUsage(usage, calls[..i], owners)
      invariant TableSum(usage) == KnownTotal(calls[..i], owners)
    {
      var e := calls[i];
      assert calls[..i + 1] == calls[..i] + [e];
      TotalsSnoc(calls[..i], e, owners);
      PrefixTotals(calls, owners, i + 1);
      if e.tool in owners {
        if !(if e.tool == PRIMARY then 0 <= e.count <= MAX_COUNT else 0 < e.count <= MAX_COUNT) { return Err; }
        var owner := owners[e.tool];
        var aggregate := Get(usage, owner) + e.count;
        UsageOrNothing(usage, calls[..i], owners, owner);
        if aggregate > MAX_COUNT {
          assert ServerTotal(calls[..i + 1], owners, owner) > MAX_COUNT;
          return Err;
        }
        TableSumUpdate(usage, owner, aggregate);
        usage := usage[owner := aggregate];
      }
    }
    assert calls[..|calls|] == calls;
    return Ok(usage);
  }

  /** The total reported for all tools must cover the known ones. */
  method CheckedUsage(calls: seq<Entry>, owners: map<string, string>, total: int) returns (r: Result<map<string, int>>)
    ensures r.Ok? <==> AdmittedAll(calls, owners) && WithinBound(calls, owners)
                       && KnownTotal(calls, owners) <= total && 0 <= total <= MAX_COUNT
    ensures r.Ok? ==> IsUsage(r.value, calls, owners)
  {
    r := Aggregate(calls, owners);
    if r.Err? { return; }
    var known := SumValues(r.value);
    if !(0 <= total <= MAX_COUNT) || total < known { return Err; }
  }

  lemma EmptyTotals(owners: map<string, string>)
    ensures WithinBound([], owners) && IsUsage(map[], [], owners) && TableSum(map[]) == KnownTotal([], owners)
  {
  }

  lemma TotalsSnoc(calls: seq<Entry>, e: Entry, owners: map<string, string>)
    ensures forall server :: ServerTotal(calls + [e], owners, server) ==
              ServerTotal(calls, owners, server) + (if e.tool in owners && owners[e.tool] == server then e.count else 0)
    ensures KnownTotal(calls + [e], owners) == KnownTotal(calls, owners) + (if e.tool in owners then e.count else 0)
    ensures forall server :: Serves(calls + [e], owners, server) <==>
              Serves(calls, owners, server) || (e.tool in owners && owners[e.tool] == server)
  {
    assert (calls + [e])[..|calls|] == calls;
    forall server
      ensures Serves(calls + [e], owners, server) <==>
                Serves(calls, owners, server) || (e.tool in owners && owners[e.tool] == server)
    {
      if Serves(calls, owners, server) {
        var i :| 0 <= i < |calls| && calls[i].tool in owners && owners[calls[i].tool] == server;
        assert (calls + [e])[i] == calls[i];
      }
      assert (calls + [e])[|calls|] == e;
    }
  }

  /** With admitted counts, totals only grow along the telemetry. */
  lemma {:induction false} PrefixTotals(calls: seq<Entry>, owners: map<string, string>, i: nat)
    requires i <= |calls|
    ensures AdmittedAll(calls, owners) ==>
              forall server :: ServerTotal(calls[..i], owners, server) <= ServerTotal(calls, owners, server)
    decreases |calls|
  {
    if i == |calls| {
      assert calls[..i] == calls;
    } else {
      var n := |calls| - 1;
      PrefixTotals(calls[..n], owners, i);
      assert calls[..n][..i] == calls[..i];
      assert AdmittedAll(calls, owners) ==> AdmittedAll(calls[..n], owners);
    }
  }

  lemma {:induction false} UsageOrNothing(usage: map<string, int>, calls: seq<Entry>, owners: map<string, string>,
                                          server: string)
    requires IsUsage(usage, calls, owners)
    ensures Get(usage, server) == ServerTotal(calls, owners, server)
  {
    if server !in usage {
      NothingServed(calls, owners, server);
    }
  }

  lemma {:induction false} NothingServed(calls: seq<Entry>, owners: map<string, string>, server: string)
    requires !Serves(calls, owners, server)
    ensures ServerTotal(calls, owners, server) == 0
  {
    if calls != [] {
      var n := |calls| - 1;
      assert forall i | 0 <= i < n :: calls[..n][i] == calls[i];
      NothingServed(calls[..n], owners, server);
    }
  }

  // The built-in server.

  /** `by_tool.get(tool, 0)` */
  function Lookup(calls: seq<Entry>, tool: string): int {
    if calls == [] then 0
    else
      var last := calls[|calls| - 1];
      if last.tool == tool then last.count else Lookup(calls[..|calls| - 1], tool)
  }

  function LookupSum(calls: seq<Entry>, names: seq<string>): int {
    if names == [] then 0 else Lookup(calls, names[0]) + LookupSum(calls, names[1..])
  }

  lemma {:induction false} AbsentLookup(calls: seq<Entry>, tool: string)
    requires forall i | 0 <= i < |calls| :: calls[i].tool != tool
    ensures Lookup(calls, tool) == 0
  {
    if calls != [] {
      AbsentLookup(calls[..|calls| - 1], tool);
    }
  }

  lemma {:induction false} LookupSumSnoc(calls: seq<Entry>, e: Entry, names: seq<string>)
    requires Distinct(names) && forall i | 0 <= i < |calls| :: calls[i].tool != e.tool
    ensures LookupSum(calls + [e], names) == LookupSum(calls, names) + (if e.tool in names then e.count else 0)
  {
    assert (calls + [e])[..|calls|] == calls;
    if names != [] {
      LookupSumSnoc(calls, e, names[1..]);
      if e.tool == names[0] {
        AbsentLookup(calls, e.tool);
        assert e.tool !in names[1..];
      }
    } else {
      assert LookupSum(calls + [e], names) == 0;
    }
  }

  /** A server's usage is the sum over its own tools, when each tool is reported once. */
  lemma {:induction false} UsageByTool(calls: seq<Entry>, owners: map<string, string>, server: string,
                                       names: seq<string>)
    requires UniqueTools(calls) && Distinct(names)
    requires forall tool :: tool in names <==> tool in owners && owners[tool] == server
    ensures ServerTotal(calls, owners, server) == LookupSum(calls, names)
  {
    if calls == [] {
      NoLookups(names);
    } else {
      var n := |calls| - 1;
      UsageByTool(calls[..n], owners, server, names);
      LookupSumSnoc(calls[..n], calls[n], names);
      assert calls[..n] + [calls[n]] == calls;
    }
  }

  lemma {:induction false} NoLookups(names: seq<string>)
    ensures LookupSum([], names) == 0
  {
    if names != [] {
      NoLookups(names[1..]);
    }
  }

  datatype Capability = Capability(server: string, tools: seq<string>)

  /** `{tool: server}` over all capabilities, in their order. */
  function OwnersOf(capabilities: seq<Capability>): map<string, string> {
    if capabilities == [] then map[]
    else
      var last := capabilities[|capabilities| - 1];
      OwnersOf(capabilities[..|capabilities| - 1]) + (map tool | tool in last.tools :: last.server)
  }

  /** The tools of the built-in server: the three evidence tools, the context tools in enriched
      mode, and the diagram tool when diagrams are on. */
  function BuiltinTools(enriched: bool, diagrams: bool): seq<string> {
    [PRIMARY, SEARCH, COVERAGE] + (if enriched then ["context_list", "context_get"] else [])
    + (if diagrams then [DIAGRAM] else [])
  }

  predicate Composed(capabilities: seq<Capability>, enriched: bool, diagrams: bool) {
    && Capability(BUILTIN, BuiltinTools(enriched, diagrams)) in capabilities
    && (forall i, j | 0 <= i < j < |capabilities| :: capabilities[i].server != capabilities[j].server)
    && UniqueOwners(capabilities)
  }

  predicate UniqueOwners(capabilities: seq<Capability>) {
    forall i, j | 0 <= i < j < |capabilities| :: forall t | t in capabilities[i].tools :: t !in capabilities[j].tools
  }

  lemma {:induction false} OwnersExact(capabilities: seq<Capability>, tool: string)
    requires UniqueOwners(capabilities)
    ensures tool in OwnersOf(capabilities) <==> exists i :: 0 <= i < |capabilities| && tool in capabilities[i].tools
    ensures forall i | 0 <= i < |capabilities| && tool in capabilities[i].tools ::
              tool in OwnersOf(capabilities) && OwnersOf(capabilities)[tool] == capabilities[i].server
  {
    if capabilities != [] {
      var n := |capabilities| - 1;
      OwnersExact(capabilities[..n], tool);
      assert forall i | 0 <= i < n :: capabilities[..n][i] == capabilities[i];
      if tool in capabilities[n].tools {
        assert forall i | 0 <= i < n :: tool !in capabilities[i].tools;
      }
    }
  }

  lemma BuiltinOwns(capabilities: seq<Capability>, enriched: bool, diagrams: bool, tool: string)
    requires Composed(capabilities, enriched, diagrams)
    ensures tool in BuiltinTools(enriched, diagrams) <==>
            tool in OwnersOf(capabilities) && OwnersOf(capabilities)[tool] == BUILTIN
  {
    hide BuiltinTools;
    OwnersExact(capabilities, tool);
    var b :| 0 <= b < |capabilities| && capabilities[b] == Capability(BUILTIN, BuiltinTools(enriched, diagrams));
    if tool in OwnersOf(capabilities) && OwnersOf(capabilities)[tool] == BUILTIN {
      var i :| 0 <= i < |capabilities| && tool in capabilities[i].tools;
      assert i == b;
    }
  }

  function EvidenceByTool(calls: seq<Entry>): (int, int, int) {
    (Lookup(calls, PRIMARY), Lookup(calls, SEARCH), Lookup(calls, COVERAGE))
  }

  function ContextCalls(calls: seq<Entry>, enriched: bool): int {
    if enriched then Lookup(calls, "context_list") + Lookup(calls, "context_get") else 0
  }

  function DiagramCalls(calls: seq<Entry>, diagrams: bool): int {
    if diagrams then Lookup(calls, DIAGRAM) else 0
  }

  lemma BuiltinTotal(calls: seq<Entry>, enriched: bool, diagrams: bool)
    ensures Distinct(BuiltinTools(enriched, diagrams))
    ensures LookupSum(calls, BuiltinTools(enriched, diagrams)) ==
            Lookup(calls, PRIMARY) + Lookup(calls, SEARCH) + Lookup(calls, COVERAGE)
            + ContextCalls(calls, enriched) + DiagramCalls(calls, diagrams)
  {
    var context := if enriched then ["context_list", "context_get"] else [];
    var diagram := if diagrams then [DIAGRAM] else [];
    LookupSumAppend(calls, [PRIMARY, SEARCH, COVERAGE] + context, diagram);
    LookupSumAppend(calls, [PRIMARY, SEARCH, COVERAGE], context);
    LookupSumAppend(calls, [PRIMARY, SEARCH], [COVERAGE]);
    LookupSumAppend(calls, [PRIMARY], [SEARCH]);
    LookupSumAppend(calls, ["context_list"], ["context_get"]);
    LookupOne(calls, PRIMARY);
    LookupOne(calls, SEARCH);
    LookupOne(calls, COVERAGE);
    LookupOne(calls, "context_list");
    LookupOne(calls, "context_get");
    LookupOne(calls, DIAGRAM);
    assert [PRIMARY] + [SEARCH] == [PRIMARY, SEARCH] && [PRIMARY, SEARCH] + [COVERAGE] == [PRIMARY, SEARCH, COVERAGE];
    assert ["context_list"] + ["context_get"] == ["context_list", "context_get"];
  }

  lemma LookupOne(calls: seq<Entry>, tool: string)
    ensures LookupSum(calls, [tool]) == Lookup(calls, tool)
  {
    assert [tool][1..] == [];
    NoNames(calls);
  }

  lemma NoNames(calls: seq<Entry>)
    ensures LookupSum(calls, []) == 0
  {
  }

  lemma {:induction false} LookupSumAppend(calls: seq<Entry>, a: seq<string>, b: seq<string>)
    ensures LookupSum(calls, a + b) == LookupSum(calls, a) + LookupSum(calls, b)
  {
    if a == [] {
      assert a + b == b;
    } else {
      LookupSumAppend(calls, a[1..], b);
      assert (a + b)[1..] == a[1..] + b;
    }
  }

  lemma {:induction false} LookupAdmitted(calls: seq<Entry>, owners: map<string, string>, tool: string)
    requires AdmittedAll(calls, owners) && tool in owners
    ensures Lookup(calls, tool) >= 0
  {
    if calls != [] {
      LookupAdmitted(calls[..|calls| - 1], owners, tool);
    }
  }

  /** The receipt agrees with itself: whenever the usage loop and the attribution succeed, the
      built-in server's usage is evidence, context and diagram calls together, and the published
      attribution passes the validator. No bound on the telemetry is assumed. */
  lemma ReceiptAgrees(calls: seq<Entry>, capabilities: seq<Capability>, enriched: bool, diagrams: bool,
                      usage: map<string, int>, t: ByTool, counts: Option<ActionCounts>, mandatory: bool)
    requires UniqueTools(calls) && Composed(capabilities, enriched, diagrams)
    requires AdmittedAll(calls, OwnersOf(capabilities)) && WithinBound(calls, OwnersOf(capabilities))
    requires IsUsage(usage, calls, OwnersOf(capabilities))
    requires EvidenceByTool(calls) == (t.primary, t.search, t.coverage)
    requires Attribute(t, counts, mandatory).Ok?
    ensures Get(usage, BUILTIN) == Calls(t) + ContextCalls(calls, enriched) + DiagramCalls(calls, diagrams)
    ensures Calls(t) <= MAX_COUNT && ValidActions(Attribute(t, counts, mandatory).value, Calls(t), mandatory)
    ensures mandatory ==> Completed(Attribute(t, counts, mandatory).value) > 0
  {
    hide Attribute, ValidActions, BuiltinTools, Composed, OwnersOf, Serves, ServerTotal;
    var owners, names := OwnersOf(capabilities), BuiltinTools(enriched, diagrams);
    forall tool ensures tool in names <==> tool in owners && owners[tool] == BUILTIN {
      BuiltinOwns(capabilities, enriched, diagrams, tool);
    }
    BuiltinTotal(calls, enriched, diagrams);
    UsageByTool(calls, owners, BUILTIN, names);
    UsageOrNothing(usage, calls, owners, BUILTIN);
    Members(enriched, diagrams);
    forall tool | tool in names ensures Lookup(calls, tool) >= 0 { LookupAdmitted(calls, owners, tool); }
    AttributionIsConserved(t, counts, mandatory);
    MandatoryIsUsed(t, counts, mandatory);
  }

  /** Mandatory evidence shows as used. */
  lemma MandatoryIsUsed(t: ByTool, counts: Option<ActionCounts>, mandatory: bool)
    requires Attribute(t, counts, mandatory).Ok?
    ensures mandatory ==> Completed(Attribute(t, counts, mandatory).value) > 0
  {
  }

  lemma Members(enriched: bool, diagrams: bool)
    ensures var names := BuiltinTools(enriched, diagrams);
            && (enriched ==> "context_list" in names && "context_get" in names)
            && (diagrams ==> DIAGRAM in names)
  {
    var names := BuiltinTools(enriched, diagrams);
    if enriched { assert names[3] == "context_list" && names[4] == "context_get"; }
    if diagrams { assert names[|names| - 1] == DIAGRAM; }
  }

  /** The validator's check on one usage table. */
  predicate ValidUsage(usage: map<string, int>) {
    forall server | server in usage :: 0 < usage[server] <= MAX_COUNT
  }

  /** The producer's own validator refuses its usage exactly when the primary tool is reported
      with zero calls and no other tool of its server was called. */
  lemma UsageRefusedExactly(calls: seq<Entry>, owners: map<string, string>, usage: map<string, int>)
    requires AdmittedAll(calls, owners) && WithinBound(calls, owners) && IsUsage(usage, calls, owners)
    ensures ValidUsage(usage) <==>
            !(PRIMARY in owners && Entry(PRIMARY, 0) in calls && !Positive(calls, owners, owners[PRIMARY]))
  {
    hide ServerTotal, Positive;
    forall server | server in usage ensures 0 < usage[server] <==> Positive(calls, owners, server) {
      PositiveExact(calls, owners, server);
    }
    forall server | Serves(calls, owners, server)
      ensures Positive(calls, owners, server)
              || (PRIMARY in owners && owners[PRIMARY] == server && Entry(PRIMARY, 0) in calls)
    {
      ServedOrZero(calls, owners, server);
    }
    if PRIMARY in owners && Entry(PRIMARY, 0) in calls {
      var i :| 0 <= i < |calls| && calls[i] == Entry(PRIMARY, 0);
      assert calls[i].tool in owners;
      assert Serves(calls, owners, owners[PRIMARY]);
    }
  }

  /** Such a usage: the primary tool reported with no call, alone. */
  lemma ZeroAloneIsRefused()
    ensures var calls, owners, usage := [Entry(PRIMARY, 0)], map[PRIMARY := BUILTIN], map[BUILTIN := 0];
            && AdmittedAll(calls, owners) && WithinBound(calls, owners) && IsUsage(usage, calls, owners)
            && !ValidUsage(usage)
  {
    var calls, owners, usage := [Entry(PRIMARY, 0)], map[PRIMARY := BUILTIN], map[BUILTIN := 0];
    EmptyTotals(owners);
    assert [] + calls == calls;
    TotalsSnoc([], calls[0], owners);
  }

  lemma ServedOrZero(calls: seq<Entry>, owners: map<string, string>, server: string)
    requires AdmittedAll(calls, owners) && Serves(calls, owners, server)
    ensures Positive(calls, owners, server)
            || (PRIMARY in owners && owners[PRIMARY] == server && Entry(PRIMARY, 0) in calls)
  {
    var i :| 0 <= i < |calls| && calls[i].tool in owners && owners[calls[i].tool] == server;
    assert Admitted(owners, calls[i]);
    assert calls[i] == Entry(calls[i].tool, calls[i].count);
  }

  predicate Positive(calls: seq<Entry>, owners: map<string, string>, server: string) {
    exists i | 0 <= i < |calls| :: calls[i].tool in owners && owners[calls[i].tool] == server && calls[i].count > 0
  }

  lemma {:induction false} PositiveExact(calls: seq<Entry>, owners: map<string, string>, server: string)
    requires AdmittedAll(calls, owners)
    ensures ServerTotal(calls, owners, server) >= 0
    ensures ServerTotal(calls, owners, server) > 0 <==> Positive(calls, owners, server)
  {
    if calls != [] {
      var n := |calls| - 1;
      PositiveExact(calls[..n], owners, server);
      assert forall i | 0 <= i < n :: calls[..n][i] == calls[i];
      if Positive(calls[..n], owners, server) {
        var i :| 0 <= i < n && calls[..n][i].tool in owners && owners[calls[..n][i].tool] == server
                 && calls[..n][i].count > 0;
        assert calls[i].count > 0;
      }
    }
  }
}
