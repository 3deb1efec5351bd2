/** What a context record costs: which texts count, and how much each counts. */
module RecordCosts {
  import opened Json
  import opened Admission

  // The texts of a record.

  function TextOf(v: Json): multiset<string> { if v.Str? then multiset{v.text} else multiset{} }

  /** The texts of the items of a list, from the first on. */
  function ItemTexts(items: seq<Json>): multiset<string> {
    if items == [] then multiset{} else TextOf(GetOrNull(items[0], "text")) + ItemTexts(items[1..])
  }

  /** The model text, the root and the replies of the remediation thread, and every text of the outcome. */
  function RecordTexts(model: Json): multiset<string> {
    var thread, outcome := GetOrNull(model, "remediation_thread"), GetOrNull(model, "ci_outcome");
    TextOf(GetOrNull(model, "text")) + TextOf(GetOrNull(GetOrNull(thread, "root"), "text"))
    + (if GetOrNull(thread, "replies").Arr? then ItemTexts(GetOrNull(thread, "replies").items) else multiset{})
    + (if outcome.Obj? then TreeTexts(outcome) else multiset{})
  }

  lemma OneTextExactly(v: Json, key: string)
    ensures multiset(OneText(Member(v, key))) == TextOf(GetOrNull(v, key))
  {
  }

  lemma {:induction false} ItemTextsSnoc(items: seq<Json>, item: Json)
    ensures ItemTexts(items + [item]) == ItemTexts(items) + TextOf(GetOrNull(item, "text"))
  {
    hide Get;
    if items == [] {
      assert [] + [item] == [item] && [item][1..] == [];
    } else {
      ItemTextsSnoc(items[1..], item);
      assert (items + [item])[1..] == items[1..] + [item] && (items + [item])[0] == items[0];
    }
  }

  lemma NoItems()
    ensures ItemTexts([]) == multiset{}
  {
  }

  lemma {:induction false} ReplyTextsExactly(replies: seq<Json>)
    ensures multiset(ReplyTexts(replies)) == ItemTexts(replies)
  {
    hide TextOf, Get, OneText, ItemTexts;
    NoItems();
    if replies != [] {
      var n := |replies| - 1;
      ReplyTextsExactly(replies[..n]);
      OneTextExactly(replies[n], "text");
      ItemTextsSnoc(replies[..n], replies[n]);
      assert replies == replies[..n] + [replies[n]];
    }
  }

  lemma ThreadTextsExactly(model: Json)
    ensures var outcome := GetOrNull(model, "ci_outcome");
            multiset(ThreadTexts(model)) + (if outcome.Obj? then TreeTexts(outcome) else multiset{})
            == RecordTexts(model)
  {
    hide TreeTexts, Get, ItemTexts, ReplyTexts, OneText, TextOf;
    var thread := GetOrNull(model, "remediation_thread");
    OneTextExactly(model, "text");
    OneTextExactly(GetOrNull(thread, "root"), "text");
    NoTexts();
    if GetOrNull(thread, "replies").Arr? { ReplyTextsExactly(GetOrNull(thread, "replies").items); }
  }

  lemma NoTexts()
    ensures TextOf(Null) == multiset{}
    ensures forall key: string :: GetOrNull(Null, key) == Null
  {
  }

  // How much a text counts.

  function Concatenated(texts: seq<string>): string {
    if texts == [] then "" else Concatenated(texts[..|texts| - 1]) + texts[|texts| - 1]
  }

  /** The places of the characters from a code point on. */
  function From(s: string, least: int): set<nat> { set i | 0 <= i < |s| && s[i] as int >= least }

  /** One unit per character; one byte, and one more from U+0080, U+0800 and U+10000 on; one line per
      text, and one more per line feed. */
  function Measured(texts: seq<string>): Cost {
    var s := Concatenated(texts);
    Cost(|s|, |s| + |From(s, 0x80)| + |From(s, 0x800)| + |From(s, 0x1_0000)|, multiset(s)['\n'] + |texts|)
  }

  lemma FromSnoc(s: string, c: char, least: int)
    ensures |From(s + [c], least)| == |From(s, least)| + (if c as int >= least then 1 else 0)
  {
    var more := if c as int >= least then {|s|} else {};
    assert From(s + [c], least) == From(s, least) + more;
  }

  lemma {:induction false} FromJoin(a: string, b: string, least: int)
    ensures |From(a + b, least)| == |From(a, least)| + |From(b, least)|
  {
    hide From;
    if b == "" {
      FromNothing(least);
      assert a + b == a;
    } else {
      var n := |b| - 1;
      FromJoin(a, b[..n], least);
      FromSnoc(b[..n], b[n], least);
      FromSnoc(a + b[..n], b[n], least);
      assert b == b[..n] + [b[n]];
      assert a + b == a + b[..n] + [b[n]];
    }
  }

  lemma FromNothing(least: int)
    ensures |From("", least)| == 0
  {
    assert From("", least) == {};
  }

  lemma {:induction false} BytesSnoc(s: string, c: char)
    ensures Bytes(s + [c]) == Bytes(s) + Width8(c) && Breaks(s + [c]) == Breaks(s) + (if c == '\n' then 1 else 0)
  {
    if s == "" {
      assert [c][1..] == "";
      assert "" + [c] == [c];
    } else {
      BytesSnoc(s[1..], c);
      assert (s + [c])[1..] == s[1..] + [c];
    }
  }

  /** Bytes and breaks of a text, by the code points of its characters. */
  lemma {:induction false} TextExactly(s: string)
    ensures Bytes(s) == |s| + |From(s, 0x80)| + |From(s, 0x800)| + |From(s, 0x1_0000)|
    ensures Breaks(s) == multiset(s)['\n']
  {
    hide From;
    if s == "" {
      FromNothing(0x80);
      FromNothing(0x800);
      FromNothing(0x1_0000);
    } else {
      var n := |s| - 1;
      TextExactly(s[..n]);
      BytesSnoc(s[..n], s[n]);
      FromSnoc(s[..n], s[n], 0x80);
      FromSnoc(s[..n], s[n], 0x800);
      FromSnoc(s[..n], s[n], 0x1_0000);
      assert s == s[..n] + [s[n]];
    }
  }

  lemma {:induction false} CostIsMeasured(texts: seq<string>)
    ensures TextsCost(texts) == Measured(texts)
  {
    hide From, Bytes, Breaks;
    if texts == [] {
      FromNothing(0x80);
      FromNothing(0x800);
      FromNothing(0x1_0000);
    } else {
      var n := |texts| - 1;
      CostIsMeasured(texts[..n]);
      var s, t := Concatenated(texts[..n]), texts[n];
      TextExactly(t);
      FromJoin(s, t, 0x80);
      FromJoin(s, t, 0x800);
      FromJoin(s, t, 0x1_0000);
      assert multiset(s + t)['\n'] == multiset(s)['\n'] + multiset(t)['\n'];
    }
  }

  // Together.

  lemma {:induction false} CostJoin(a: seq<string>, b: seq<string>)
    ensures TextsCost(a + b) == Plus(TextsCost(a), TextsCost(b))
  {
    hide TextCost, TextsCost;
    if b == [] {
      assert a + b == a;
      NothingCosts(a);
    } else {
      var n := |b| - 1;
      CostJoin(a, b[..n]);
      assert b == b[..n] + [b[n]];
      assert a + b == a + b[..n] + [b[n]];
      TextsCostSnoc(b[..n], b[n]);
      TextsCostSnoc(a + b[..n], b[n]);
    }
  }

  lemma NothingCosts(a: seq<string>)
    ensures Plus(TextsCost(a), TextsCost([])) == TextsCost(a)
  {
    hide TextsCost;
    KidsNothing();
    PlusNothing(TextsCost(a));
  }

  lemma OneCosts(s: string)
    ensures TextsCost([s]) == TextCost(s)
  {
    hide TextsCost, TextCost;
    KidsNothing();
    TextsCostSnoc([], s);
    assert [] + [s] == [s];
  }

  /** The order of texts does not matter. */
  lemma {:induction false} CostOfShuffled(a: seq<string>, b: seq<string>)
    requires multiset(a) == multiset(b)
    ensures TextsCost(a) == TextsCost(b)
    decreases |a|
  {
    hide TextCost, TextsCost;
    if a == [] {
      assert |multiset(b)| == |b|;
    } else {
      var n := |a| - 1;
      var x := a[n];
      assert a == a[..n] + [x];
      var before, after := TakenOut(b, x, multiset(a[..n]));
      CostOfShuffled(a[..n], before + after);
      CostJoin(before, [x] + after);
      CostJoin([x], after);
      CostJoin(before, after);
      CostJoin(a[..n], [x]);
    }
  }

  lemma TakenOut(b: seq<string>, x: string, rest: multiset<string>) returns (before: seq<string>, after: seq<string>)
    requires multiset(b) == rest + multiset{x}
    ensures b == before + ([x] + after) && multiset(before + after) == rest
  {
    assert x in multiset(b);
    var k :| 0 <= k < |b| && b[k] == x;
    before, after := b[..k], b[k + 1..];
    assert b == before + ([x] + after);
    assert multiset(before + ([x] + after)) == multiset(before + after) + multiset{x};
    OneLess(multiset(before + after), rest, x);
  }

  lemma OneLess<T>(a: multiset<T>, b: multiset<T>, x: T)
    requires a + multiset{x} == b + multiset{x}
    ensures a == b
  {
    assert forall y :: a[y] == (a + multiset{x})[y] - multiset{x}[y];
  }

  lemma {:induction false} TreeListing(v: Json) returns (texts: seq<string>)
    ensures multiset(texts) == TreeTexts(v) && TextsCost(texts) == TreeCost(v)
    decreases v, 1
  {
    hide TextCost, TextsCost, KidsCost, KidsTexts;
    texts := [];
    KidsNothing();
    if v.Str? {
      texts := [v.text];
      OneCosts(v.text);
    } else if v.Container() {
      texts := KidsListing(v, Width(v));
    }
  }

  lemma KidsNothing()
    ensures TextsCost([]) == FREE
  {
  }

  lemma KidsStep(v: Json, n: nat)
    requires v.Container() && n <= Width(v)
    ensures n == 0 ==> KidsTexts(v, n) == multiset{} && KidsCost(v, n) == TextsCost([])
    ensures n > 0 ==> KidsTexts(v, n) == KidsTexts(v, n - 1) + TreeTexts(ChildAt(v, n - 1))
    ensures n > 0 ==> KidsCost(v, n) == Plus(KidsCost(v, n - 1), TreeCost(ChildAt(v, n - 1)))
  {
    hide TreeTexts, TreeCost;
  }

  lemma {:induction false} KidsListing(v: Json, n: nat) returns (texts: seq<string>)
    requires v.Container() && n <= Width(v)
    ensures multiset(texts) == KidsTexts(v, n) && TextsCost(texts) == KidsCost(v, n)
    decreases v, 0, n
  {
    hide TextCost, TextsCost, TreeCost, TreeTexts, KidsTexts, KidsCost;
    texts := [];
    KidsStep(v, n);
    if n > 0 {
      var before := KidsListing(v, n - 1);
      var last := TreeListing(ChildAt(v, n - 1));
      CostJoin(before, last);
      texts := before + last;
    }
  }

  /** A record costs what its texts measure, every one of them once and no other, in whatever order
      they are listed. */
  lemma RecordCostExactly(r: Record, texts: seq<string>)
    requires multiset(texts) == RecordTexts(r.model)
    ensures RecordCost(r) == Measured(texts)
  {
    hide TextsCost, Measured, TreeCost, TreeTexts, ThreadTexts, RecordTexts;
    var outcome, listed := GetOrNull(r.model, "ci_outcome"), ThreadTexts(r.model);
    ThreadTextsExactly(r.model);
    OutcomeIsMember(r.model);
    if outcome.Obj? {
      var nested := TreeListing(outcome);
      CostJoin(listed, nested);
      listed := listed + nested;
    } else {
      assert listed + [] == listed;
      PlusNothing(TextsCost(listed));
    }
    CostOfShuffled(listed, texts);
    CostIsMeasured(texts);
  }

  lemma PlusNothing(c: Cost)
    ensures Plus(c, FREE) == c
  {
  }

  lemma OutcomeIsMember(model: Json)
    ensures var outcome := Member(model, CI_OUTCOME);
            if outcome.Some? && outcome.value.Obj? then GetOrNull(model, "ci_outcome") == outcome.value
            else !GetOrNull(model, "ci_outcome").Obj?
  {
  }
}
