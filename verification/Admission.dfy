/** Greedy admission of context records under four budgets. */
module Admission {
  import opened Json

  const CI_OUTCOME := "ci_outcome"

  datatype Record = Record(source: string, model: Json)

  datatype Budgets = Budgets(records: nat, chars: nat, bytes: nat, lines: nat)

  /** What a text, a record or a selection costs. */
  datatype Cost = Cost(chars: nat, bytes: nat, lines: nat)

  const FREE := Cost(0, 0, 0)

  function Plus(a: Cost, b: Cost): Cost { Cost(a.chars + b.chars, a.bytes + b.bytes, a.lines + b.lines) }

  predicate AtMost(a: Cost, b: Cost) { a.chars <= b.chars && a.bytes <= b.bytes && a.lines <= b.lines }

  /** The UTF-8 length of one character. */
  function Width8(c: char): nat {
    var n := c as int;
    if n < 0x80 then 1 else if n < 0x800 then 2 else if n < 0x10000 then 3 else 4
  }

  function Bytes(s: string): nat { if s == "" then 0 else Width8(s[0]) + Bytes(s[1..]) }

  function Breaks(s: string): nat { if s == "" then 0 else (if s[0] == '\n' then 1 else 0) + Breaks(s[1..]) }

  function TextCost(s: string): Cost { Cost(|s|, Bytes(s), Breaks(s) + 1) }

  function TextsCost(texts: seq<string>): Cost {
    if texts == [] then FREE else Plus(TextsCost(texts[..|texts| - 1]), TextCost(texts[|texts| - 1]))
  }

  // The texts of one record.

  function Member(v: Json, key: string): Option<Json> { if v.Obj? then Get(v, key) else None }

  function OneText(v: Option<Json>): seq<string> { if v.Some? && v.value.Str? then [v.value.text] else [] }

  function ReplyTexts(replies: seq<Json>): seq<string> {
    if replies == [] then []
    else ReplyTexts(replies[..|replies| - 1]) + OneText(Member(replies[|replies| - 1], "text"))
  }

  /** The model text, then the root and the replies of a remediation thread. */
  function ThreadTexts(model: Json): seq<string> {
    var thread := Member(model, "remediation_thread");
    OneText(Member(model, "text")) +
    (if thread.None? || !thread.value.Obj? then []
     else
       var root, replies := Member(thread.value, "root"), Member(thread.value, "replies");
       (if root.Some? then OneText(Member(root.value, "text")) else []) +
       (if replies.Some? && replies.value.Arr? then ReplyTexts(replies.value.items) else []))
  }

  /** All the text in a tree, at any depth. */
  function TreeCost(v: Json): Cost
    decreases v, 1
  {
    if v.Str? then TextCost(v.text) else if v.Container() then KidsCost(v, Width(v)) else FREE
  }

  function KidsCost(v: Json, n: nat): Cost
    requires v.Container() && n <= Width(v)
    decreases v, 0, n
  {
    if n == 0 then FREE else Plus(KidsCost(v, n - 1), TreeCost(ChildAt(v, n - 1)))
  }

  /** Every text in a tree, at any depth, as often as it occurs. */
  function TreeTexts(v: Json): multiset<string>
    decreases v, 1
  {
    if v.Str? then multiset{v.text} else if v.Container() then KidsTexts(v, Width(v)) else multiset{}
  }

  function KidsTexts(v: Json, n: nat): multiset<string>
    requires v.Container() && n <= Width(v)
    decreases v, 0, n
  {
    if n == 0 then multiset{} else KidsTexts(v, n - 1) + TreeTexts(ChildAt(v, n - 1))
  }

  function StackTexts(stack: seq<Json>): multiset<string> {
    if stack == [] then multiset{} else StackTexts(stack[..|stack| - 1]) + TreeTexts(stack[|stack| - 1])
  }

  function StackCost(stack: seq<Json>): Cost {
    if stack == [] then FREE else Plus(StackCost(stack[..|stack| - 1]), TreeCost(stack[|stack| - 1]))
  }

  function StackSize(stack: seq<Json>): nat {
    if stack == [] then 0 else StackSize(stack[..|stack| - 1]) + Size(stack[|stack| - 1])
  }

  function Kids(v: Json, n: nat): (s: seq<Json>)
    requires v.Container() && n <= Width(v)
    ensures |s| == n && forall i | 0 <= i < n :: s[i] == ChildAt(v, i)
  {
    seq(n, i requires 0 <= i < n => ChildAt(v, i))
  }

  /** Pushing the children of a container costs as much text and fewer values than the container. */
  lemma {:induction false} PushKids(stack: seq<Json>, v: Json, n: nat)
    requires v.Container() && n <= Width(v)
    ensures StackCost(stack + Kids(v, n)) == Plus(StackCost(stack), KidsCost(v, n))
    ensures StackTexts(stack + Kids(v, n)) == StackTexts(stack) + KidsTexts(v, n)
    ensures StackSize(stack + Kids(v, n)) == StackSize(stack) + KidsSize(v, n)
  {
    hide TreeCost, Size, TextCost, StackCost, StackSize, TreeTexts, StackTexts;
    if n == 0 {
      assert stack + Kids(v, 0) == stack;
    } else {
      PushKids(stack, v, n - 1);
      assert stack + Kids(v, n) == stack + Kids(v, n - 1) + [ChildAt(v, n - 1)];
      StackSnoc(stack + Kids(v, n - 1), ChildAt(v, n - 1));
    }
  }

  lemma StackSnoc(stack: seq<Json>, v: Json)
    ensures StackCost(stack + [v]) == Plus(StackCost(stack), TreeCost(v))
    ensures StackTexts(stack + [v]) == StackTexts(stack) + TreeTexts(v)
    ensures StackSize(stack + [v]) == StackSize(stack) + Size(v)
  {
    hide TreeCost, Size, TreeTexts;
    assert (stack + [v])[..|stack|] == stack;
  }

  lemma TextsCostSnoc(texts: seq<string>, text: string)
    ensures TextsCost(texts + [text]) == Plus(TextsCost(texts), TextCost(text))
  {
    assert (texts + [text])[..|texts|] == texts;
  }

  /** The stack walk over an outcome finds every text once, in whatever order. */
  method NestedTexts(outcome: Json, before: seq<string>) returns (texts: seq<string>)
    ensures multiset(texts) == multiset(before) + TreeTexts(outcome)
    ensures TextsCost(texts) == Plus(TextsCost(before), TreeCost(outcome))
  {
    hide TreeCost, TextCost, StackCost, StackSize, TextsCost, KidsCost, Size,
         KidsSize, TreeTexts, KidsTexts, StackTexts;
    var stack := [outcome];
    texts := before;
    OneOnStack(outcome);
    while stack != []
      invariant multiset(texts) + StackTexts(stack) == multiset(before) + TreeTexts(outcome)
      invariant Plus(TextsCost(texts), StackCost(stack)) == Plus(TextsCost(before), TreeCost(outcome))
      decreases StackSize(stack)
    {
      var n := |stack| - 1;
      var nested := stack[n];
      assert stack == stack[..n] + [nested];
      StackSnoc(stack[..n], nested);
      Opened(nested);
      stack := stack[..n];
      if nested.Container() {
        PushKids(stack, nested, Width(nested));
        stack := stack + Kids(nested, Width(nested));
      } else if nested.Str? {
        TextsCostSnoc(texts, nested.text);
        texts := texts + [nested.text];
      }
    }
    NothingOnStack();
  }

  lemma NothingOnStack()
    ensures StackCost([]) == FREE && StackTexts([]) == multiset{}
  {
  }

  lemma OneOnStack(v: Json)
    ensures StackCost([v]) == TreeCost(v) && StackTexts([v]) == TreeTexts(v)
  {
    hide TreeCost, StackCost, StackSize, Size, TreeTexts, StackTexts;
    NothingOnStack();
    StackSnoc([], v);
    assert [] + [v] == [v];
  }

  lemma Opened(v: Json)
    ensures TreeCost(v) == if v.Str? then TextCost(v.text) else if v.Container() then KidsCost(v, Width(v)) else FREE
    ensures TreeTexts(v) ==
            if v.Str? then multiset{v.text} else if v.Container() then KidsTexts(v, Width(v)) else multiset{}
    ensures Size(v) == if v.Container() then 1 + KidsSize(v, Width(v)) else 1
  {
  }

  function RecordCost(r: Record): Cost {
    var outcome := Member(r.model, CI_OUTCOME);
    Plus(TextsCost(ThreadTexts(r.model)), if outcome.Some? && outcome.value.Obj? then TreeCost(outcome.value) else FREE)
  }

  // Greedy admission.

  function Total(records: seq<Record>): Cost {
    if records == [] then FREE else Plus(Total(records[..|records| - 1]), RecordCost(records[|records| - 1]))
  }

  predicate Fits(admitted: seq<Record>, r: Record, b: Budgets) {
    && |admitted| < b.records
    && AtMost(Plus(Total(admitted), RecordCost(r)), Cost(b.chars, b.bytes, b.lines))
  }

  /** The places of the admitted records: each record is kept if it still fits. */
  function Places(records: seq<Record>, b: Budgets): (p: seq<nat>)
    ensures forall k | 0 <= k < |p| :: p[k] < |records|
  {
    if records == [] then []
    else
      var n := |records| - 1;
      var before := Places(records[..n], b);
      if Fits(At(records, before), records[n], b) then before + [n] else before
  }

  function At(records: seq<Record>, places: seq<nat>): (s: seq<Record>)
    requires forall k | 0 <= k < |places| :: places[k] < |records|
    ensures |s| == |places| && forall k | 0 <= k < |s| :: s[k] == records[places[k]]
  {
    seq(|places|, k requires 0 <= k < |places| => records[places[k]])
  }

  function Admitted(records: seq<Record>, b: Budgets): seq<Record> { At(records, Places(records, b)) }

  /** The sources of the records left out. */
  function Skipped(records: seq<Record>, places: seq<nat>): set<string> {
    set k | 0 <= k < |records| && k !in places :: records[k].source
  }

  function Limited(records: seq<Record>, b: Budgets): set<string> { Skipped(records, Places(records, b)) }

  method BoundedCombinedRecords(records: seq<Record>, b: Budgets) returns (admitted: seq<Record>, limited: set<string>)
    ensures admitted == Admitted(records, b) && limited == Limited(records, b)
  {
    hide RecordCost, Fits;
    admitted, limited := [], {};
    var total := FREE;
    for i := 0 to |records|
      invariant admitted == Admitted(records[..i], b) && total == Total(admitted)
      invariant limited == Limited(records[..i], b)
    {
      var r := records[i];
      AdmittedSnoc(records, i, b);
      var cost := CostOf(r);
      FitsIs(admitted, r, b);
      var next := Plus(total, cost);
      if |admitted| >= b.records || next.chars > b.chars || next.bytes > b.bytes || next.lines > b.lines {
        limited := limited + {r.source};
      } else {
        assert (admitted + [r])[..|admitted|] == admitted;
        admitted, total := admitted + [r], next;
      }
    }
    assert records[..|records|] == records;
  }

  method CostOf(r: Record) returns (cost: Cost)
    ensures cost == RecordCost(r)
  {
    hide TreeCost, TextsCost, ThreadTexts, Member;
    var texts := ThreadTexts(r.model);
    var outcome := Member(r.model, CI_OUTCOME);
    if outcome.Some? && outcome.value.Obj? {
      texts := NestedTexts(outcome.value, texts);
    }
    cost := TextsCost(texts);
  }

  lemma FitsIs(admitted: seq<Record>, r: Record, b: Budgets)
    ensures var next := Plus(Total(admitted), RecordCost(r));
            Fits(admitted, r, b) <==>
            !(|admitted| >= b.records || next.chars > b.chars || next.bytes > b.bytes || next.lines > b.lines)
  {
  }

  lemma AdmittedSnoc(records: seq<Record>, i: nat, b: Budgets)
    requires i < |records|
    ensures var before, r := records[..i], records[i];
            if Fits(Admitted(before, b), r, b)
            then Admitted(records[..i + 1], b) == Admitted(before, b) + [r]
                 && Limited(records[..i + 1], b) == Limited(before, b)
            else Admitted(records[..i + 1], b) == Admitted(before, b)
                 && Limited(records[..i + 1], b) == Limited(before, b) + {r.source}
  {
    hide Fits, Places, At, Skipped;
    var before, after := records[..i], records[..i + 1];
    assert after == before + [records[i]];
    PlacesSnoc(records, i, b);
    AtSnoc(before, records[i], Places(before, b));
    LimitedSnoc(before, records[i], Places(before, b), Places(after, b));
  }

  lemma AtSnoc(before: seq<Record>, r: Record, p: seq<nat>)
    requires forall k | 0 <= k < |p| :: p[k] < |before|
    ensures At(before + [r], p + [|before|]) == At(before, p) + [r]
    ensures At(before + [r], p) == At(before, p)
    ensures |before| !in p
    ensures forall k: nat | k < |before| :: k in p + [|before|] <==> k in p
  {
  }

  lemma LimitedSnoc(before: seq<Record>, r: Record, p: seq<nat>, q: seq<nat>)
    requires forall k: nat | k < |before| :: k in q <==> k in p
    ensures Skipped(before + [r], q) == Skipped(before, p) + (if |before| in q then {} else {r.source})
  {
    var after := before + [r];
    assert forall k | 0 <= k < |before| :: after[k] == before[k];
    assert after[|before|] == r;
    forall s ensures s in Skipped(after, q) <==> s in Skipped(before, p) || (|before| !in q && s == r.source) {
      if s in Skipped(before, p) {
        var k :| 0 <= k < |before| && k !in p && before[k].source == s;
        assert after[k].source == s;
      }
    }
  }

  lemma PlacesSnoc(records: seq<Record>, i: nat, b: Budgets)
    requires i < |records|
    ensures var before := records[..i];
            Places(records[..i + 1], b)
            == if Fits(Admitted(before, b), records[i], b) then Places(before, b) + [i] else Places(before, b)
  {
    hide Fits;
    var before, after := records[..i], records[..i + 1];
    assert after[..i] == before && after[i] == records[i];
    assert At(after, Places(before, b)) == At(before, Places(before, b));
  }

  // What greedy admission gives.

  lemma {:induction false} TotalMonotone(records: seq<Record>, r: Record)
    ensures AtMost(Total(records), Total(records + [r])) && Total(records + [r]) == Plus(Total(records), RecordCost(r))
  {
    assert (records + [r])[..|records|] == records;
  }

  /** The admitted records keep their order. */
  lemma {:induction false} PlacesAscend(records: seq<Record>, b: Budgets)
    ensures forall k, l | 0 <= k < l < |Places(records, b)| :: Places(records, b)[k] < Places(records, b)[l]
    decreases |records|
  {
    hide Fits;
    if records != [] {
      var n := |records| - 1;
      PlacesAscend(records[..n], b);
      PlacesSnoc(records, n, b);
      assert records[..n + 1] == records;
    }
  }

  /** The admitted records stay within every budget. */
  lemma {:induction false} WithinBudgets(records: seq<Record>, b: Budgets)
    ensures |Admitted(records, b)| <= b.records
    ensures AtMost(Total(Admitted(records, b)), Cost(b.chars, b.bytes, b.lines))
    decreases |records|
  {
    hide RecordCost, Places, At, Limited;
    if records == [] {
      NothingAdmitted(b);
    } else {
      var n := |records| - 1;
      WithinBudgets(records[..n], b);
      AdmittedSnoc(records, n, b);
      assert records[..n + 1] == records;
      TotalMonotone(Admitted(records[..n], b), records[n]);
    }
  }

  lemma NothingAdmitted(b: Budgets)
    ensures Admitted([], b) == []
  {
  }

  /** What does not fit a selection does not fit a longer one. */
  lemma FitsShrinks(admitted: seq<Record>, more: Record, r: Record, b: Budgets)
    ensures Fits(admitted + [more], r, b) ==> Fits(admitted, r, b)
  {
    hide RecordCost;
    TotalMonotone(admitted, more);
  }

  /** The result is maximal: no skipped record could join the final selection. */
  lemma {:induction false} AdmissionIsMaximal(records: seq<Record>, b: Budgets, i: nat)
    requires i < |records| && i !in Places(records, b)
    ensures !Fits(Admitted(records, b), records[i], b)
    decreases |records|
  {
    hide Fits, At, Limited;
    var n := |records| - 1;
    AdmittedSnoc(records, n, b);
    assert records[..n + 1] == records;
    if i < n {
      AdmissionIsMaximal(records[..n], b, i);
      FitsShrinks(Admitted(records[..n], b), records[n], records[i], b);
    }
  }

  /** A record is skipped exactly when it did not fit what was admitted before it. */
  lemma {:induction false} SkippedExactly(records: seq<Record>, b: Budgets, i: nat)
    requires i < |records|
    ensures i in Places(records, b) <==> Fits(Admitted(records[..i], b), records[i], b)
    decreases |records|
  {
    hide Fits, At, Admitted;
    var n := |records| - 1;
    if i == n {
      PlacesSnoc(records, i, b);
      assert records[..i + 1] == records;
    }
    if i < n {
      SkippedExactly(records[..n], b, i);
      PlacesSnoc(records, n, b);
      assert records[..n + 1] == records;
      assert records[..n][..i] == records[..i];
    }
  }
}
