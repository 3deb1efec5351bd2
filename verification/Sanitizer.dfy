/** The explicit-stack walk that sanitises a result by filling mutable containers in place. */
module Sanitizer {
  import opened Json
  import opened Rewrite
  import Placeholder

  /** What a target container holds: a finished leaf or a container still being filled. */
  datatype Slot = Leaf(value: Json) | Ref(node: Node)

  datatype Entry = Entry(step: Step, slot: Slot)

  /** One output `dict` or `list`. The ghost fields remember which input it stands for. */
  class Node {
    ghost const source: Json
    ghost const path: Path
    const isList: bool
    var entries: seq<Entry>

    constructor (ghost source: Json, ghost path: Path, isList: bool)
      ensures this.source == source && this.path == path && this.isList == isList
      ensures entries == []
    {
      this.source, this.path, this.isList, this.entries := source, path, isList, [];
    }

    /** `target[key] = value` on a dict, `target.append(value)` on a list. */
    method Put(step: Step, slot: Slot)
      modifies this
      ensures (isList || forall e | e in old(entries) :: e.step != step) ==>
                entries == old(entries) + [Entry(step, slot)]
    {
      var i := 0;
      if !isList {
        while i < |entries|
          invariant i <= |entries| && entries == old(entries)
          invariant forall k | 0 <= k < i :: entries[k].step != step
        {
          if entries[i].step == step {
            assert entries[i] in old(entries);
            entries := entries[i := Entry(step, slot)];
            return;
          }
          i := i + 1;
        }
      }
      entries := entries + [Entry(step, slot)];
    }
  }

  datatype Job = Job(source: Json, target: Node, path: Path)

  /** Every reference stays inside the set and points to a smaller input. */
  ghost predicate Linked(nodes: set<Node>)
    reads nodes
  {
    forall n, e | n in nodes && e in n.entries && e.slot.Ref? ::
      e.slot.node in nodes && e.slot.node.source < n.source
  }

  /** The JSON value that a container denotes. */
  ghost function Denote(n: Node, nodes: set<Node>): Json
    requires Linked(nodes) && n in nodes
    reads nodes
    decreases n.source, 1
  {
    var values := DenoteFirst(n, |n.entries|, nodes);
    if n.isList then Arr(values)
    else Obj(seq(|n.entries|, k requires 0 <= k < |values| == |n.entries| reads n =>
      Field(if n.entries[k].step.Key? then n.entries[k].step.name else "", values[k])))
  }

  /** The values of the first `k` entries. */
  ghost function DenoteFirst(n: Node, k: nat, nodes: set<Node>): (values: seq<Json>)
    requires Linked(nodes) && n in nodes && k <= |n.entries|
    reads nodes
    ensures |values| == k
    decreases n.source, 0, k
  {
    if k == 0 then []
    else
      assert n.entries[k - 1] in n.entries;
      DenoteFirst(n, k - 1, nodes) + [
        match n.entries[k - 1].slot
        case Leaf(v) => v
        case Ref(m) => Denote(m, nodes)
      ]
  }

  // The state of the walk.

  ghost predicate StandsFor(n: Node, v: Json, path: Path) {
    n.source == v && n.path == path && n.isList == v.Arr?
  }

  /** An entry is what the rewrite makes of a retained child. */
  ghost predicate Fits(e: Entry, kid: Kid, path: Path, nodes: set<Node>, check: Admission, table: Table) {
    && e.step == kid.step
    && var at := path + [kid.step];
       if kid.value.Container() then
         e.slot.Ref? && e.slot.node in nodes && StandsFor(e.slot.node, kid.value, at)
       else
         && e.slot == Leaf(RewriteLeaf(kid.value, at, check, table))
         && (MustReplace(kid.value, at, check) ==> kid.value.text in table)
  }

  /** The entries are what the first `i` children of `v` become. */
  ghost predicate EntriesFit(entries: seq<Entry>, v: Json, path: Path, i: nat, nodes: set<Node>,
                             check: Admission, table: Table)
    requires v.Container() && i <= Width(v)
  {
    var kids := Retained(v, path, i, check);
    && |entries| == |kids|
    && forall k | 0 <= k < |kids| :: Fits(entries[k], kids[k], path, nodes, check, table)
  }

  /** The first `i` input children have been processed into `n`. */
  ghost predicate FilledTo(n: Node, i: nat, nodes: set<Node>, check: Admission, table: Table)
    reads n
  {
    && n.source.Container() && i <= Width(n.source) && UniqueKeys(n.source)
    && n.isList == n.source.Arr?
    && EntriesFit(n.entries, n.source, n.path, i, nodes, check, table)
  }

  ghost predicate Filled(n: Node, nodes: set<Node>, check: Admission, table: Table)
    reads n
  {
    n.source.Container() && FilledTo(n, Width(n.source), nodes, check, table)
  }

  ghost function Pending(stack: seq<Job>): set<Node> {
    set j | j in stack :: j.target
  }

  /** Queued targets are empty, distinct, and stand for their queued input. */
  ghost predicate Queued(stack: seq<Job>, nodes: set<Node>)
    reads nodes
  {
    && (forall k | 0 <= k < |stack| ::
          && stack[k].target in nodes
          && StandsFor(stack[k].target, stack[k].source, stack[k].path)
          && stack[k].source.Container() && UniqueKeys(stack[k].source)
          && stack[k].target.entries == [])
    && (forall j, k | 0 <= j < k < |stack| :: stack[j].target != stack[k].target)
  }

  /** Every container that is neither queued nor busy is finished. */
  ghost predicate Settled(nodes: set<Node>, stack: seq<Job>, busy: set<Node>, check: Admission, table: Table)
    reads nodes
  {
    && Queued(stack, nodes)
    && forall n | n in nodes && n !in busy && n !in Pending(stack) :: Filled(n, nodes, check, table)
  }

  ghost function Backlog(stack: seq<Job>, check: Admission): Tally
    requires forall j | j in stack :: j.source.Container()
  {
    if stack == [] then NO_TALLY
    else
      var top := stack[|stack| - 1];
      assert top in stack;
      Plus(Backlog(stack[..|stack| - 1], check), TreeTally(top.source, top.path, check))
  }

  /** What is still to be replaced below the queued containers, the top of the stack first. */
  ghost function BacklogTexts(stack: seq<Job>, check: Admission): seq<string>
    requires forall j | j in stack :: j.source.Container()
  {
    if stack == [] then []
    else
      var top := stack[|stack| - 1];
      assert top in stack;
      WalkTexts(top.source, top.path, check) + BacklogTexts(stack[..|stack| - 1], check)
  }

  function BacklogSize(stack: seq<Job>): nat {
    if stack == [] then 0
    else BacklogSize(stack[..|stack| - 1]) + Size(stack[|stack| - 1].source)
  }

  // Growing the set of containers and the table keeps finished work finished.

  lemma EntriesGrow(entries: seq<Entry>, v: Json, path: Path, i: nat, nodes: set<Node>, nodes': set<Node>,
                    check: Admission, table: Table, table': Table)
    requires v.Container() && i <= Width(v) && EntriesFit(entries, v, path, i, nodes, check, table)
    requires nodes <= nodes' && table.Items <= table'.Items
    ensures EntriesFit(entries, v, path, i, nodes', check, table')
  {
    var kids := Retained(v, path, i, check);
    forall s | s in table ensures s in table' && table'[s] == table[s] {
      assert (s, table[s]) in table.Items;
    }
    forall k | 0 <= k < |kids| ensures Fits(entries[k], kids[k], path, nodes', check, table') {
      assert Fits(entries[k], kids[k], path, nodes, check, table);
    }
  }

  /** A dropped child adds no entry; a surviving one adds exactly its own. */
  lemma EntriesNext(entries: seq<Entry>, more: seq<Entry>, v: Json, path: Path, i: nat, nodes: set<Node>,
                    check: Admission, table: Table)
    requires v.Container() && i < Width(v) && EntriesFit(entries, v, path, i, nodes, check, table)
    requires var at := path + [StepAt(v, i)];
             if Survives(at, check)
             then |more| == 1 && Fits(more[0], Kid(StepAt(v, i), ChildAt(v, i)), path, nodes, check, table)
             else more == []
    ensures EntriesFit(entries + more, v, path, i + 1, nodes, check, table)
  {
    var kids, kids' := Retained(v, path, i, check), Retained(v, path, i + 1, check);
    forall k | 0 <= k < |kids'| ensures Fits((entries + more)[k], kids'[k], path, nodes, check, table) {
      if k < |kids| {
        assert Fits(entries[k], kids[k], path, nodes, check, table);
      }
    }
  }

  lemma FilledGrows(n: Node, i: nat, nodes: set<Node>, nodes': set<Node>,
                    check: Admission, table: Table, table': Table)
    requires FilledTo(n, i, nodes, check, table)
    requires nodes <= nodes' && table.Items <= table'.Items
    ensures FilledTo(n, i, nodes', check, table')
  {
    EntriesGrow(n.entries, n.source, n.path, i, nodes, nodes', check, table, table');
  }

  lemma SettledGrows(nodes: set<Node>, stack: seq<Job>, busy: set<Node>, check: Admission,
                     table: Table, table': Table)
    requires Settled(nodes, stack, busy, check, table)
    requires table.Items <= table'.Items
    ensures Settled(nodes, stack, busy, check, table')
  {
    forall n | n in nodes && n !in busy && n !in Pending(stack)
      ensures Filled(n, nodes, check, table')
    {
      FilledGrows(n, Width(n.source), nodes, nodes, check, table, table');
    }
  }

  /** Retained steps come from the input children already seen. */
  lemma {:induction false} RetainedSteps(v: Json, path: Path, n: nat, check: Admission, k: nat)
    requires v.Container() && n <= Width(v) && k < |Retained(v, path, n, check)|
    ensures exists j :: 0 <= j < n && Retained(v, path, n, check)[k] == Kid(StepAt(v, j), ChildAt(v, j))
  {
    if n > 0 {
      var before := Retained(v, path, n - 1, check);
      if k < |before| {
        RetainedSteps(v, path, n - 1, check, k);
      } else {
        assert Retained(v, path, n, check)[k] == Kid(StepAt(v, n - 1), ChildAt(v, n - 1));
      }
    }
  }

  /** The next surviving key is new, so writing it appends. */
  lemma NextStepFresh(n: Node, i: nat, nodes: set<Node>, check: Admission, table: Table)
    requires FilledTo(n, i, nodes, check, table) && i < Width(n.source)
    ensures forall e | e in n.entries :: e.step != StepAt(n.source, i)
  {
    forall e | e in n.entries ensures e.step != StepAt(n.source, i) {
      var k :| 0 <= k < |n.entries| && n.entries[k] == e;
      assert Fits(n.entries[k], Retained(n.source, n.path, i, check)[k], n.path, nodes, check, table);
      RetainedSteps(n.source, n.path, i, check, k);
    }
  }

  /** Work done (`acc`) plus work queued (`queued`) accounts for everything seen so far. */
  lemma RecordNow(acc: Tally, queued: Tally, before: Tally, seen: Tally, step: Tally)
    requires Plus(acc, queued) == Plus(before, seen)
    ensures Plus(Plus(acc, step), queued) == Plus(before, Plus(seen, step))
  {
    var left, right := Plus(Plus(acc, step), queued), Plus(before, Plus(seen, step));
    assert left.reasons == Plus(acc, queued).reasons + step.reasons == right.reasons;
    assert left.replaced == Plus(acc, queued).replaced + step.replaced == right.replaced;
  }

  lemma RecordLater(acc: Tally, queued: Tally, before: Tally, seen: Tally, step: Tally)
    requires Plus(acc, queued) == Plus(before, seen)
    ensures Plus(acc, Plus(queued, step)) == Plus(before, Plus(seen, step))
  {
    var left, right := Plus(acc, Plus(queued, step)), Plus(before, Plus(seen, step));
    assert left.reasons == Plus(acc, queued).reasons + step.reasons == right.reasons;
    assert left.replaced == Plus(acc, queued).replaced + step.replaced == right.replaced;
  }

  lemma TableItemsGrow(table: Table, s: string, mark: string)
    requires s !in table
    ensures table.Items <= table[s := mark].Items
  {
    forall item | item in table.Items ensures item in table[s := mark].Items {
      assert item.0 in table;
    }
  }

  /** `replacements.setdefault(value, f"ocr-redacted-{len(replacements) + 1:06d}")`. */
  method SetDefault(table: Table, s: string) returns (table': Table)
    requires Numbered(table)
    ensures Numbered(table')
    ensures table.Items <= table'.Items && table'.Keys == table.Keys + {s} && table' == Assigned(table, s)
  {
    hide Numbered;
    if s in table { return table; }
    var mark := Placeholder.Label(|table| + 1);
    table' := table[s := mark];
    TableItemsGrow(table, s, mark);
    NumberedGrows(table, s);
  }

  /** The locals of the walk: the stack, the reason counter, the field counter, the table. */
  datatype Walk = Walk(stack: seq<Job>, reasons: multiset<string>, redacted: nat, table: Table)

  /** What the counters have recorded so far; fields beyond the reasons are removed keys. */
  ghost function Recorded(w: Walk): Tally
    requires |w.reasons| <= w.redacted
  {
    Tally(w.reasons, w.redacted - |w.reasons|, w.table.Keys)
  }

  lemma CountReason(w: Walk, w': Walk, reason: string, replaced: set<string>)
    requires |w.reasons| <= w.redacted
    requires w'.reasons == w.reasons + multiset{reason} && w'.redacted == w.redacted + 1
    requires w'.table.Keys == w.table.Keys + replaced
    ensures |w'.reasons| <= w'.redacted
    ensures Recorded(w') == Plus(Recorded(w), Tally(multiset{reason}, 0, replaced))
  {
    assert |w'.reasons| == |w.reasons| + 1;
  }

  /** The heap part of the loop invariant: `job` is busy and its first `i` items are done. */
  ghost predicate Processing(job: Job, i: nat, nodes: set<Node>, stack: seq<Job>, check: Admission, table: Table)
    reads nodes
  {
    && job.source.Container() && i <= Width(job.source)
    && job.target in nodes && StandsFor(job.target, job.source, job.path)
    && job.target !in Pending(stack)
    && Settled(nodes, stack, {job.target}, check, table)
    && FilledTo(job.target, i, nodes, check, table)
  }

  /** What the walk had before it took up a container: its tally, queued work included, the texts
      replaced so far and the texts still to come from the queue. */
  datatype Before = Before(tally: Tally, done: seq<string>, queue: seq<string>)

  /** The ordering part: the texts replaced and the texts queued are those of the first `i` items. */
  ghost predicate Ordered(job: Job, i: nat, before: Before, w: Walk, check: Admission)
    requires forall j | j in w.stack :: j.source.Container()
  {
    && job.source.Container() && i <= Width(job.source)
    && w.table == NumberingOf(before.done + OwnTexts(job.source, job.path, i, check))
    && BacklogTexts(w.stack, check) == LaterTexts(job.source, job.path, i, check) + before.queue
  }

  /** The counting part: recorded plus queued work is all work seen so far. */
  ghost predicate Accounted(job: Job, i: nat, before: Before, w: Walk, check: Admission)
    requires forall j | j in w.stack :: j.source.Container()
  {
    && job.source.Container() && i <= Width(job.source)
    && Numbered(w.table)
    && |w.reasons| <= w.redacted
    && Plus(Recorded(w), Backlog(w.stack, check)) ==
       Plus(before.tally, KidsTally(job.source, job.path, i, check))
    && Ordered(job, i, before, w, check)
  }

  ghost predicate Progress(job: Job, i: nat, before: Before, nodes: set<Node>, w: Walk, check: Admission)
    reads nodes
  {
    Processing(job, i, nodes, w.stack, check, w.table) && Accounted(job, i, before, w, check)
  }

  lemma AccountNow(job: Job, i: nat, before: Before, w: Walk, w': Walk, check: Admission)
    requires forall j | j in w.stack :: j.source.Container()
    requires Accounted(job, i, before, w, check) && i < Width(job.source)
    requires var at := job.path + [StepAt(job.source, i)];
             !(ChildAt(job.source, i).Container() && Survives(at, check)) &&
             |w'.reasons| <= w'.redacted &&
             Recorded(w') == Plus(Recorded(w), OwnTally(ChildAt(job.source, i), at, check)) &&
             w'.table == (if Survives(at, check) && MustReplace(ChildAt(job.source, i), at, check)
                          then Assigned(w.table, ChildAt(job.source, i).text) else w.table)
    requires w'.stack == w.stack && Numbered(w'.table)
    ensures Accounted(job, i + 1, before, w', check)
  {
    var child, at := ChildAt(job.source, i), job.path + [StepAt(job.source, i)];
    hide Plus, OwnTally, Ordered, Numbered, Survives, MustReplace, Assigned, NumberingOf;
    RecordNow(Recorded(w), Backlog(w.stack, check), before.tally,
              KidsTally(job.source, job.path, i, check), OwnTally(child, at, check));
    OrderNow(job, i, before, w, w', check);
  }

  lemma OrderNow(job: Job, i: nat, before: Before, w: Walk, w': Walk, check: Admission)
    requires forall j | j in w.stack :: j.source.Container()
    requires Ordered(job, i, before, w, check) && i < Width(job.source) && w'.stack == w.stack
    requires var child, at := ChildAt(job.source, i), job.path + [StepAt(job.source, i)];
             && !(child.Container() && Survives(at, check))
             && w'.table == (if Survives(at, check) && MustReplace(child, at, check)
                             then Assigned(w.table, child.text) else w.table)
    ensures Ordered(job, i + 1, before, w', check)
  {
    hide Survives, MustReplace, WalkTexts, Assigned, OwnTexts, LaterTexts, BacklogTexts, NumberingOf;
    OrderStep(job.source, job.path, i + 1, check);
    var own, child := OwnTexts(job.source, job.path, i, check), ChildAt(job.source, i);
    var later := LaterTexts(job.source, job.path, i, check);
    assert own + [] == own && [] + later == later;
    OnlyTextReplaced(child, job.path + [StepAt(job.source, i)], check);
    if child.Str? {
      assert before.done + (own + [child.text]) == before.done + own + [child.text];
      NumberingSnoc(before.done + own, child.text);
    }
  }

  lemma OrderLater(job: Job, i: nat, before: Before, w: Walk, next: Job, check: Admission)
    requires forall j | j in w.stack :: j.source.Container()
    requires Ordered(job, i, before, w, check) && i < Width(job.source)
    requires next.path == job.path + [StepAt(job.source, i)] && next.source == ChildAt(job.source, i)
    requires next.source.Container() && Survives(next.path, check)
    ensures Ordered(job, i + 1, before, w.(stack := w.stack + [next]), check)
  {
    hide Survives, MustReplace, WalkTexts, NumberingOf, OwnTexts, LaterTexts, BacklogTexts;
    OrderStep(job.source, job.path, i + 1, check);
    OnlyTextReplaced(next.source, next.path, check);
    BacklogPush(w.stack, next, check);
    var own, later := OwnTexts(job.source, job.path, i, check), LaterTexts(job.source, job.path, i, check);
    assert own + [] == own;
    var texts := WalkTexts(next.source, next.path, check);
    assert texts + (later + before.queue) == (texts + later) + before.queue;
  }

  lemma BacklogPush(stack: seq<Job>, next: Job, check: Admission)
    requires (forall j | j in stack :: j.source.Container()) && next.source.Container()
    ensures forall j | j in stack + [next] :: j.source.Container()
    ensures BacklogTexts(stack + [next], check) == WalkTexts(next.source, next.path, check) + BacklogTexts(stack, check)
  {
    hide WalkTexts;
    assert (stack + [next])[..|stack|] == stack;
  }

  lemma OnlyTextReplaced(v: Json, path: Path, check: Admission)
    ensures MustReplace(v, path, check) ==> v.Str?
  {
  }

  lemma AccountLater(job: Job, i: nat, before: Before, w: Walk, next: Job, check: Admission)
    requires forall j | j in w.stack :: j.source.Container()
    requires Accounted(job, i, before, w, check) && i < Width(job.source)
    requires next.path == job.path + [StepAt(job.source, i)] && next.source == ChildAt(job.source, i)
    requires next.source.Container() && Survives(next.path, check)
    ensures Accounted(job, i + 1, before, w.(stack := w.stack + [next]), check)
    ensures BacklogSize(w.stack + [next]) == BacklogSize(w.stack) + Size(next.source)
  {
    hide Plus, TreeTally, Survives, Numbered, Ordered;
    OrderLater(job, i, before, w, next, check);
    var stack := w.stack + [next];
    assert stack[..|w.stack|] == w.stack;
    RecordLater(Recorded(w), Backlog(w.stack, check), before.tally,
                KidsTally(job.source, job.path, i, check), TreeTally(next.source, next.path, check));
  }

  /** Adds one entry to the busy container; all other containers keep their state. */
  method Emit(target: Node, step: Step, slot: Slot, ghost nodes: set<Node>, ghost stack: seq<Job>,
              ghost check: Admission, ghost table: Table)
    requires Settled(nodes, stack, {target}, check, table) && target !in Pending(stack)
    requires forall e | e in target.entries :: e.step != step
    modifies target
    ensures target.entries == old(target.entries) + [Entry(step, slot)]
    ensures Settled(nodes, stack, {target}, check, table)
  {
    target.Put(step, slot);
    forall k | 0 <= k < |stack| ensures stack[k].target.entries == [] {
      assert stack[k].target in Pending(stack);
    }
    forall n | n in nodes && n !in {target} && n !in Pending(stack)
      ensures Filled(n, nodes, check, table)
    {
      assert old(Filled(n, nodes, check, table));
    }
  }

  /** Queuing a new empty container. */
  lemma SettledPush(nodes: set<Node>, stack: seq<Job>, job: Job, busy: set<Node>, check: Admission, table: Table)
    requires Settled(nodes, stack, busy, check, table)
    requires job.target !in nodes && job.target.entries == []
    requires StandsFor(job.target, job.source, job.path) && job.source.Container() && UniqueKeys(job.source)
    ensures Settled(nodes + {job.target}, stack + [job], busy, check, table)
  {
    var nodes', stack' := nodes + {job.target}, stack + [job];
    assert Pending(stack') == Pending(stack) + {job.target};
    forall n | n in nodes' && n !in busy && n !in Pending(stack')
      ensures Filled(n, nodes', check, table)
    {
      FilledGrows(n, Width(n.source), nodes, nodes', check, table, table);
    }
  }

  /** A surviving container: start an empty target for it and queue the pair. */
  method Descend(job: Job, i: nat, ghost before: Before, ghost nodes: set<Node>, w: Walk, check: Admission)
    returns (w': Walk, ghost nodes': set<Node>)
    requires Progress(job, i, before, nodes, w, check) && i < Width(job.source)
    requires ChildAt(job.source, i).Container()
    requires Survives(job.path + [StepAt(job.source, i)], check)
    modifies job.target
    ensures nodes <= nodes' && fresh(nodes' - nodes)
    ensures Progress(job, i + 1, before, nodes', w', check)
    ensures BacklogSize(w'.stack) == BacklogSize(w.stack) + Size(ChildAt(job.source, i))
  {
    hide Recorded, OwnTally, TreeTally, Plus, Survives, EntriesFit, Retained, Numbered, Ordered;
    var step, value := StepAt(job.source, i), ChildAt(job.source, i);
    var at := job.path + [step];
    NextStepFresh(job.target, i, nodes, check, w.table);
    var child := new Node(value, at, value.Arr?);
    nodes' := nodes + {child};
    EntriesGrow(job.target.entries, job.source, job.path, i, nodes, nodes', check, w.table, w.table);
    EntriesNext(job.target.entries, [Entry(step, Ref(child))], job.source, job.path, i, nodes', check, w.table);
    Emit(job.target, step, Ref(child), nodes, w.stack, check, w.table);
    var next := Job(value, child, at);
    w' := w.(stack := w.stack + [next]);
    SettledPush(nodes, w.stack, next, {job.target}, check, w.table);
    AccountLater(job, i, before, w, next, check);
  }

  /** The counters of a dropped key. */
  method CountKey(job: Job, i: nat, w: Walk, check: Admission) returns (w': Walk)
    requires job.source.Container() && i < Width(job.source) && |w.reasons| <= w.redacted
    requires !Survives(job.path + [StepAt(job.source, i)], check)
    ensures w'.stack == w.stack && w'.table == w.table && |w'.reasons| <= w'.redacted
    ensures Recorded(w') == Plus(Recorded(w),
            OwnTally(ChildAt(job.source, i), job.path + [StepAt(job.source, i)], check))
  {
    var step := StepAt(job.source, i);
    if IsPrivate(job.path + [step]) {
      w' := w.(redacted := w.redacted + 1);
      assert Recorded(w') == Plus(Recorded(w), Tally(multiset{}, 1, {}));
    } else {
      var reason := check(step.name).reason;
      w' := w.(reasons := w.reasons + multiset{reason}, redacted := w.redacted + 1);
      CountReason(w, w', reason, {});
    }
  }

  /** A reserved or rejected key: count it and skip the item. */
  method Drop(job: Job, i: nat, ghost before: Before, ghost nodes: set<Node>, w: Walk, check: Admission)
    returns (w': Walk)
    requires Progress(job, i, before, nodes, w, check) && i < Width(job.source)
    requires !Survives(job.path + [StepAt(job.source, i)], check)
    ensures Progress(job, i + 1, before, nodes, w', check)
    ensures w'.stack == w.stack
  {
    hide Recorded, OwnTally, Plus, Survives, EntriesFit, Retained, Numbered, Ordered;
    w' := CountKey(job, i, w, check);
    EntriesNext(job.target.entries, [], job.source, job.path, i, nodes, check, w.table);
    assert job.target.entries + [] == job.target.entries;
    AccountNow(job, i, before, w, w', check);
  }

  /** A surviving scalar: replace rejected text, copy everything else. */
  method CopyLeaf(job: Job, i: nat, ghost before: Before, ghost nodes: set<Node>, w: Walk, check: Admission)
    returns (w': Walk)
    requires Progress(job, i, before, nodes, w, check) && i < Width(job.source)
    requires Survives(job.path + [StepAt(job.source, i)], check) && !ChildAt(job.source, i).Container()
    modifies job.target
    ensures Progress(job, i + 1, before, nodes, w', check)
    ensures w'.stack == w.stack
  {
    hide Recorded, OwnTally, TreeTally, Plus, Survives, EntriesFit, Retained, Numbered, RewriteLeaf, MustReplace;
    hide Ordered;
    var step, value := StepAt(job.source, i), ChildAt(job.source, i);
    var at := job.path + [step];
    NextStepFresh(job.target, i, nodes, check, w.table);
    var projected;
    projected, w' := Project(value, at, w, check);
    AccountNow(job, i, before, w, w', check);
    SettledGrows(nodes, w.stack, {job.target}, check, w.table, w'.table);
    FilledGrows(job.target, i, nodes, nodes, check, w.table, w'.table);
    EntriesNext(job.target.entries, [Entry(step, Leaf(projected))], job.source, job.path, i, nodes, check, w'.table);
    Emit(job.target, step, Leaf(projected), nodes, w.stack, check, w'.table);
  }

  /** The leaf projection, with its effect on the counters and the table. */
  method Project(value: Json, at: Path, w: Walk, check: Admission) returns (projected: Json, w': Walk)
    requires |at| > 0 && Survives(at, check) && !value.Container()
    requires Numbered(w.table) && |w.reasons| <= w.redacted
    ensures w'.stack == w.stack && Numbered(w'.table) && w.table.Items <= w'.table.Items
    ensures |w'.reasons| <= w'.redacted && Recorded(w') == Plus(Recorded(w), OwnTally(value, at, check))
    ensures projected == RewriteLeaf(value, at, check, w'.table)
    ensures w'.table == if MustReplace(value, at, check) then Assigned(w.table, value.text) else w.table
    ensures MustReplace(value, at, check) ==> value.text in w'.table
  {
    hide Numbered, NumberedBy;
    projected, w' := value, w;
    if value.Str? && !IsSink(at) {
      var checked := check(value.text);
      if checked.Rejected? {
        var table := SetDefault(w.table, value.text);
        projected := Str(table[value.text]);
        w' := w.(reasons := w.reasons + multiset{checked.reason}, redacted := w.redacted + 1, table := table);
        CountReason(w, w', checked.reason, {value.text});
        return;
      }
    }
    assert Recorded(w) == Plus(Recorded(w), NO_TALLY);
  }

  /** The body of the inner loop: one item of the popped container. */
  method Visit(job: Job, i: nat, ghost before: Before, ghost budget: nat, ghost nodes: set<Node>, w: Walk,
               check: Admission)
    returns (w': Walk, ghost nodes': set<Node>)
    requires Progress(job, i, before, nodes, w, check) && i < Width(job.source)
    requires BacklogSize(w.stack) <= budget + KidsSize(job.source, i)
    modifies job.target
    ensures nodes <= nodes' && fresh(nodes' - nodes)
    ensures Progress(job, i + 1, before, nodes', w', check)
    ensures BacklogSize(w'.stack) <= budget + KidsSize(job.source, i + 1)
  {
    nodes' := nodes;
    if !Survives(job.path + [StepAt(job.source, i)], check) {
      w' := Drop(job, i, before, nodes, w, check);
    } else if ChildAt(job.source, i).Container() {
      w', nodes' := Descend(job, i, before, nodes, w, check);
    } else {
      w' := CopyLeaf(job, i, before, nodes, w, check);
    }
  }

  /** The outer loop invariant: nothing is busy, and all work is recorded or queued. */
  ghost predicate Consistent(total: Total, nodes: set<Node>, w: Walk, check: Admission)
    reads nodes
  {
    && Settled(nodes, w.stack, {}, check, w.table)
    && Numbered(w.table) && |w.reasons| <= w.redacted
    && Plus(Recorded(w), Backlog(w.stack, check)) == total.tally
    && exists done :: Queueing(total, done, w, check)
  }

  /** All that a walk records, and the texts it replaces, in their order. */
  datatype Total = Total(tally: Tally, texts: seq<string>)

  ghost predicate Queueing(total: Total, done: seq<string>, w: Walk, check: Admission)
    requires forall j | j in w.stack :: j.source.Container()
  {
    w.table == NumberingOf(done) && done + BacklogTexts(w.stack, check) == total.texts
  }

  lemma PopCount(acc: Tally, queued: Tally, top: Tally)
    ensures Plus(acc, Plus(queued, top)) == Plus(Plus(acc, queued), top)
    ensures Plus(Plus(acc, queued), NO_TALLY) == Plus(acc, queued)
  {
    var left, right := Plus(acc, Plus(queued, top)), Plus(Plus(acc, queued), top);
    assert left.reasons == right.reasons;
    assert left.replaced == right.replaced;
  }

  /** Popping the top job makes its target the busy one. */
  lemma Pop(total: Total, nodes: set<Node>, w: Walk, check: Admission) returns (before: Before)
    requires |w.stack| > 0 && Consistent(total, nodes, w, check)
    ensures var job, rest := w.stack[|w.stack| - 1], w.stack[..|w.stack| - 1];
            && job.source.Container() && job.target in nodes
            && Precedes(before, total, job, check)
            && Progress(job, 0, before, nodes, w.(stack := rest), check)
            && BacklogSize(w.stack) == BacklogSize(rest) + 1 + KidsSize(job.source, Width(job.source))
  {
    var job, rest := w.stack[|w.stack| - 1], w.stack[..|w.stack| - 1];
    hide Plus, TreeTally, Queueing, Ordered, Numbered, StandsFor, FilledTo, Filled;
    var done :| Queueing(total, done, w, check);
    before := Before(Plus(Recorded(w), Backlog(rest, check)), done, BacklogTexts(rest, check));
    PopSettled(nodes, w.stack, check, w.table);
    PopCount(Recorded(w), Backlog(rest, check), TreeTally(job.source, job.path, check));
    PopOrder(total, done, w, before, check);
  }

  lemma PopOrder(total: Total, done: seq<string>, w: Walk, before: Before, check: Admission)
    requires |w.stack| > 0 && (forall j | j in w.stack :: j.source.Container()) && Queueing(total, done, w, check)
    requires var rest := w.stack[..|w.stack| - 1];
             (forall j | j in rest :: j.source.Container()) && before.done == done
             && before.queue == BacklogTexts(rest, check)
    ensures var job, rest := w.stack[|w.stack| - 1], w.stack[..|w.stack| - 1];
            && job.source.Container() && Ordered(job, 0, before, w.(stack := rest), check)
            && total.texts == before.done + WalkTexts(job.source, job.path, check) + before.queue
  {
    hide WalkTexts, NumberingOf;
    var job := w.stack[|w.stack| - 1];
    assert done + [] == done && [] + before.queue == before.queue;
    assert done + WalkTexts(job.source, job.path, check) + before.queue
        == done + (WalkTexts(job.source, job.path, check) + before.queue);
  }

  /** What is left before, in and behind a container makes up the total. */
  ghost predicate Precedes(before: Before, total: Total, job: Job, check: Admission)
    requires job.source.Container()
  {
    && total.tally == Plus(before.tally, TreeTally(job.source, job.path, check))
    && total.texts == before.done + WalkTexts(job.source, job.path, check) + before.queue
  }

  lemma PopSettled(nodes: set<Node>, stack: seq<Job>, check: Admission, table: Table)
    requires |stack| > 0 && Settled(nodes, stack, {}, check, table)
    ensures Processing(stack[|stack| - 1], 0, nodes, stack[..|stack| - 1], check, table)
  {
    var job, rest := stack[|stack| - 1], stack[..|stack| - 1];
    assert stack == rest + [job];
    assert Pending(stack) == Pending(rest) + {job.target};
    forall n | n in nodes && n !in {job.target} && n !in Pending(rest)
      ensures Filled(n, nodes, check, table)
    {
    }
  }

  lemma Finish(total: Total, job: Job, before: Before, nodes: set<Node>, w: Walk, check: Admission)
    requires job.source.Container() && Progress(job, Width(job.source), before, nodes, w, check)
    requires Precedes(before, total, job, check)
    ensures Consistent(total, nodes, w, check)
  {
    hide Plus, NumberingOf, Numbered, Settled, FilledTo, StandsFor, Ordered, Queueing, WalkTexts;
    FinishSettled(job, nodes, w, check);
    var done := FinishOrder(total, job, before, w, check);
  }

  lemma FinishSettled(job: Job, nodes: set<Node>, w: Walk, check: Admission)
    requires job.source.Container() && Processing(job, Width(job.source), nodes, w.stack, check, w.table)
    ensures Settled(nodes, w.stack, {}, check, w.table) && forall j | j in w.stack :: j.source.Container()
  {
    hide EntriesFit;
  }

  lemma FinishOrder(total: Total, job: Job, before: Before, w: Walk, check: Admission) returns (done: seq<string>)
    requires (forall j | j in w.stack :: j.source.Container()) && job.source.Container()
    requires Ordered(job, Width(job.source), before, w, check) && Precedes(before, total, job, check)
    ensures Queueing(total, done, w, check)
  {
    hide Plus, NumberingOf, OwnTexts, LaterTexts;
    var n := Width(job.source);
    var own, later := OwnTexts(job.source, job.path, n, check), LaterTexts(job.source, job.path, n, check);
    done := before.done + own;
    assert before.done + (own + later) + before.queue == (before.done + own) + (later + before.queue);
  }

  /** The inner loop: process every item of the popped container. */
  method Fill(job: Job, ghost before: Before, ghost nodes: set<Node>, w: Walk, check: Admission)
    returns (w': Walk, ghost nodes': set<Node>)
    requires Progress(job, 0, before, nodes, w, check)
    modifies job.target
    ensures nodes <= nodes' && fresh(nodes' - nodes)
    ensures Progress(job, Width(job.source), before, nodes', w', check)
    ensures BacklogSize(w'.stack) <= BacklogSize(w.stack) + KidsSize(job.source, Width(job.source))
  {
    hide KidsSize, BacklogSize, Progress, Width;
    ProgressIsOver(job, 0, before, nodes, w, check);
    w', nodes' := w, nodes;
    ghost var budget := BacklogSize(w.stack);
    var i := 0;
    while i < Width(job.source)
      invariant i <= Width(job.source)
      invariant nodes <= nodes' && fresh(nodes' - nodes)
      invariant Progress(job, i, before, nodes', w', check)
      invariant BacklogSize(w'.stack) <= budget + KidsSize(job.source, i)
    {
      w', nodes' := Visit(job, i, before, budget, nodes', w', check);
      i := i + 1;
    }
  }

  lemma ProgressIsOver(job: Job, i: nat, before: Before, nodes: set<Node>, w: Walk, check: Admission)
    requires Progress(job, i, before, nodes, w, check)
    ensures job.source.Container() && job.target in nodes && forall j | j in w.stack :: j.source.Container()
  {
    hide FilledTo, StandsFor, Accounted;
  }

  /** Finished containers denote the recursive rewrite of the input they stand for. */
  lemma {:induction false} DenotesRewrite(n: Node, nodes: set<Node>, check: Admission, table: Table)
    requires n in nodes && (forall m | m in nodes :: Filled(m, nodes, check, table))
    ensures Linked(nodes)
    ensures Denote(n, nodes) == Rewritten(n.source, n.path, check, table)
    decreases n.source
  {
    FilledLinks(nodes, check, table);
    var kids := AllRetained(n.source, n.path, check);
    var values := DenoteFirst(n, |n.entries|, nodes);
    forall k | 0 <= k < |kids|
      ensures values[k] == Rewritten(kids[k].value, n.path + [kids[k].step], check, table)
    {
      assert Fits(n.entries[k], kids[k], n.path, nodes, check, table);
      DenoteAt(n, |n.entries|, k, nodes);
      if kids[k].value.Container() {
        DenotesRewrite(n.entries[k].slot.node, nodes, check, table);
      }
    }
    assert values == seq(|kids|, k requires 0 <= k < |kids| =>
      Rewritten(kids[k].value, n.path + [kids[k].step], check, table));
    forall k | 0 <= k < |kids| ensures n.entries[k].step == kids[k].step {
      assert Fits(n.entries[k], kids[k], n.path, nodes, check, table);
    }
    assert Denote(n, nodes) == Rebuild(n.source, kids, values);
  }

  lemma FilledLinks(nodes: set<Node>, check: Admission, table: Table)
    requires forall m | m in nodes :: Filled(m, nodes, check, table)
    ensures Linked(nodes)
  {
    forall n, e | n in nodes && e in n.entries && e.slot.Ref?
      ensures e.slot.node in nodes && e.slot.node.source < n.source
    {
      var k :| 0 <= k < |n.entries| && n.entries[k] == e;
      assert Fits(n.entries[k], AllRetained(n.source, n.path, check)[k], n.path, nodes, check, table);
    }
  }

  lemma {:induction false} DenoteAt(n: Node, count: nat, k: nat, nodes: set<Node>)
    requires Linked(nodes) && n in nodes && k < count <= |n.entries|
    ensures n.entries[k].slot.Leaf? ==> DenoteFirst(n, count, nodes)[k] == n.entries[k].slot.value
    ensures n.entries[k].slot.Ref? ==>
              n.entries[k].slot.node in nodes &&
              DenoteFirst(n, count, nodes)[k] == Denote(n.entries[k].slot.node, nodes)
    decreases count
  {
    assert n.entries[k] in n.entries;
    if k < count - 1 {
      DenoteAt(n, count - 1, k, nodes);
    }
  }

  lemma Start(payload: Json, root: Node, check: Admission)
    requires payload.Obj? && UniqueKeys(payload)
    requires StandsFor(root, payload, []) && root.entries == []
    ensures Consistent(Total(TreeTally(payload, [], check), WalkTexts(payload, [], check)), {root},
                       Walk([Job(payload, root, [])], multiset{}, 0, map[]), check)
  {
    var w, total := Walk([Job(payload, root, [])], multiset{}, 0, map[]), TreeTally(payload, [], check);
    assert NumberedBy(w.table, []);
    assert Pending(w.stack) == {root};
    assert Backlog(w.stack, check) == Plus(Backlog([], check), total) == total;
    assert Plus(Recorded(w), total) == total;
    var texts := WalkTexts(payload, [], check);
    assert BacklogTexts([], check) == [];
    assert BacklogTexts(w.stack, check) == texts + BacklogTexts([], check) == texts;
    assert [] + texts == texts;
    assert Queueing(Total(total, texts), [], w, check);
  }

  lemma Stop(total: Total, nodes: set<Node>, w: Walk, check: Admission)
    requires Consistent(total, nodes, w, check) && w.stack == []
    ensures forall n | n in nodes :: Filled(n, nodes, check, w.table)
    ensures Recorded(w) == total.tally && w.table == NumberingOf(total.texts)
  {
    assert Pending(w.stack) == {};
    assert Plus(Recorded(w), NO_TALLY) == Recorded(w);
    var done :| Queueing(total, done, w, check);
    assert done + [] == done;
  }

  /** One turn of the outer loop: pop a container and process its items. */
  method PopAndFill(ghost total: Total, ghost nodes: set<Node>, w: Walk, check: Admission)
    returns (w': Walk, ghost nodes': set<Node>)
    requires |w.stack| > 0 && Consistent(total, nodes, w, check)
    modifies nodes
    ensures nodes <= nodes' && fresh(nodes' - nodes)
    ensures Consistent(total, nodes', w', check) && BacklogSize(w'.stack) < BacklogSize(w.stack)
  {
    hide *;
    ghost var before := Pop(total, nodes, w, check);
    var job, rest := w.stack[|w.stack| - 1], w.(stack := w.stack[..|w.stack| - 1]);
    w', nodes' := Fill(job, before, nodes, rest, check);
    Finish(total, job, before, nodes', w', check);
  }

  /** The stack-driven walk refines the recursive rewrite: it builds exactly the tree that the
      rewrite under the final replacement table describes, its counters are exact, and the table
      numbers the replaced texts in the order of their first use. */
  method Sanitize(payload: Json, check: Admission)
    returns (root: Node, ghost nodes: set<Node>, reasons: multiset<string>, redacted: nat, table: Table)
    requires payload.Obj? && UniqueKeys(payload)
    ensures fresh(nodes) && root in nodes && Linked(nodes)
    ensures Denote(root, nodes) == Rewritten(payload, [], check, table)
    ensures table == LeftTable(payload, check)
    ensures Numbered(table) && table.Keys == TreeTally(payload, [], check).replaced
    ensures reasons == TreeTally(payload, [], check).reasons
    ensures redacted == |reasons| + TreeTally(payload, [], check).removed
  {
    hide Plus, TreeTally, WalkTexts, NumberingOf, Numbered, Rewritten, Denote, Settled;
    root := new Node(payload, [], false);
    nodes := {root};
    var w := Walk([Job(payload, root, [])], multiset{}, 0, map[]);
    ghost var total := Total(TreeTally(payload, [], check), WalkTexts(payload, [], check));
    Start(payload, root, check);
    while |w.stack| > 0
      invariant root in nodes && root.source == payload && root.path == [] && fresh(nodes)
      invariant Consistent(total, nodes, w, check)
      decreases BacklogSize(w.stack)
    {
      w, nodes := PopAndFill(total, nodes, w, check);
    }
    Stop(total, nodes, w, check);
    DenotesRewrite(root, nodes, check, w.table);
    reasons, redacted, table := w.reasons, w.redacted, w.table;
  }
}
