/** Stable semantic versions, their order, and adjacent releases. */
module Versions {
  import opened Json

  datatype Semver = Semver(major: nat, minor: nat, patch: nat)

  predicate Less(a: Semver, b: Semver) {
    a.major < b.major || (a.major == b.major && (a.minor < b.minor || (a.minor == b.minor && a.patch < b.patch)))
  }

  /** A version as written: `v` in front is optional, and numbers have no leading zeros, so a
      text is given by these parts. Any other value is not a version. */
  datatype Text = Invalid | Written(prefixed: bool, number: Semver)

  /** The text without a leading `v`. */
  function Bare(t: Text): Text {
    match t
    case Invalid => Invalid
    case Written(_, n) => Written(false, n)
  }

  /** The number of a valid text. */
  function NumberOf(t: Text): Semver {
    if t.Written? then t.number else Semver(0, 0, 0)
  }

  datatype Transition = Patch | Minor | Major

  /** The adjacent releases a promotion may step to. */
  function ReleaseTransition(previous: Semver, candidate: Semver): Option<Transition> {
    if candidate.major == previous.major && candidate.minor == previous.minor
       && candidate.patch == previous.patch + 1 then Some(Patch)
    else if candidate.major == previous.major && candidate.minor == previous.minor + 1
            && candidate.patch == 0 then Some(Minor)
    else if candidate.major == previous.major + 1 && candidate.minor == 0 && candidate.patch == 0 then Some(Major)
    else None
  }

  // Sorting by version.

  type KeyOf<!T> = T -> Semver

  predicate Ascending<T>(s: seq<T>, key: KeyOf<T>) {
    forall i, j | 0 <= i < j < |s| :: !Less(key(s[j]), key(s[i]))
  }

  predicate StrictlyAscending<T>(s: seq<T>, key: KeyOf<T>) {
    forall i, j | 0 <= i < j < |s| :: Less(key(s[i]), key(s[j]))
  }

  function Insert<T>(x: T, s: seq<T>, key: KeyOf<T>): seq<T> {
    if s == [] || !Less(key(s[0]), key(x)) then [x] + s else [s[0]] + Insert(x, s[1..], key)
  }

  /** `sorted(s, key=key)`: stable, ascending. */
  function Sort<T>(s: seq<T>, key: KeyOf<T>): seq<T> {
    if s == [] then [] else Insert(s[0], Sort(s[1..], key), key)
  }

  lemma {:induction false} InsertElements<T>(x: T, s: seq<T>, key: KeyOf<T>)
    ensures multiset(Insert(x, s, key)) == multiset{x} + multiset(s)
    ensures forall y | y in Insert(x, s, key) :: y == x || y in s
  {
    if s != [] && Less(key(s[0]), key(x)) {
      InsertElements(x, s[1..], key);
      assert s == [s[0]] + s[1..];
    }
  }

  lemma {:induction false} InsertSorts<T>(x: T, s: seq<T>, key: KeyOf<T>)
    requires Ascending(s, key)
    ensures Ascending(Insert(x, s, key), key)
  {
    if s != [] && Less(key(s[0]), key(x)) {
      InsertSorts(x, s[1..], key);
      InsertElements(x, s[1..], key);
      var r := Insert(x, s[1..], key);
      forall k | 0 <= k < |r| ensures !Less(key(r[k]), key(s[0])) {
        assert r[k] in r;
      }
    }
  }

  lemma {:induction false} SortSorts<T>(s: seq<T>, key: KeyOf<T>)
    ensures Ascending(Sort(s, key), key)
    ensures multiset(Sort(s, key)) == multiset(s) && |Sort(s, key)| == |s|
  {
    if s != [] {
      SortSorts(s[1..], key);
      InsertSorts(s[0], Sort(s[1..], key), key);
      InsertElements(s[0], Sort(s[1..], key), key);
      assert s == [s[0]] + s[1..];
      assert |multiset(Sort(s, key))| == |Sort(s, key)|;
      assert |multiset(s)| == |s|;
    }
  }

  /** A strictly ascending sequence is determined by its elements. */
  lemma {:induction false} AscendingUnique<T>(a: seq<T>, b: seq<T>, key: KeyOf<T>)
    requires StrictlyAscending(a, key) && Ascending(b, key) && multiset(a) == multiset(b)
    ensures a == b
  {
    hide StrictlyAscending, Ascending;
    assert |a| == |multiset(a)| == |multiset(b)| == |b|;
    if a != [] {
      HeadsAgree(a, b, key);
      TailsAscend(a, b, key);
      assert a == [a[0]] + a[1..] && b == [b[0]] + b[1..];
      assert multiset(a[1..]) == multiset(a) - multiset{a[0]};
      AscendingUnique(a[1..], b[1..], key);
    }
  }

  lemma TailsAscend<T>(a: seq<T>, b: seq<T>, key: KeyOf<T>)
    requires a != [] && b != [] && StrictlyAscending(a, key) && Ascending(b, key)
    ensures StrictlyAscending(a[1..], key) && Ascending(b[1..], key)
  {
  }

  lemma HeadsAgree<T>(a: seq<T>, b: seq<T>, key: KeyOf<T>)
    requires a != [] && b != [] && StrictlyAscending(a, key) && Ascending(b, key) && multiset(a) == multiset(b)
    ensures a[0] == b[0]
  {
    assert b[0] in multiset(a) && a[0] in multiset(b);
    var i :| 0 <= i < |a| && a[i] == b[0];
    var j :| 0 <= j < |b| && b[j] == a[0];
  }

  /** Sorting any arrangement of a strictly ascending sequence restores it. */
  lemma SortRestores<T>(a: seq<T>, shuffled: seq<T>, key: KeyOf<T>)
    requires StrictlyAscending(a, key) && multiset(shuffled) == multiset(a)
    ensures Sort(shuffled, key) == a
  {
    SortSorts(shuffled, key);
    AscendingUnique(a, Sort(shuffled, key), key);
  }

  /** Adjacent steps lead strictly upwards. */
  lemma TransitionAscends(previous: Semver, candidate: Semver)
    requires ReleaseTransition(previous, candidate).Some?
    ensures Less(previous, candidate)
  {
  }

  type Relation<!T> = (T, T) -> bool

  /** Every two entries at different places are related, whichever comes first. */
  predicate Pairwise<T>(s: seq<T>, rel: Relation<T>) {
    forall i, j | 0 <= i < |s| && 0 <= j < |s| && i != j :: rel(s[i], s[j])
  }

  lemma {:induction false} InsertPairwise<T>(x: T, s: seq<T>, key: KeyOf<T>, rel: Relation<T>)
    requires Pairwise(s, rel) && forall y | y in s :: rel(x, y) && rel(y, x)
    ensures Pairwise(Insert(x, s, key), rel)
  {
    if s != [] && Less(key(s[0]), key(x)) {
      InsertPairwise(x, s[1..], key, rel);
      InsertElements(x, s[1..], key);
      var r := Insert(x, s[1..], key);
      forall k | 0 <= k < |r| ensures rel(s[0], r[k]) && rel(r[k], s[0]) {
        assert r[k] in r;
        if r[k] in s[1..] {
          var j :| 0 <= j < |s[1..]| && s[1..][j] == r[k];
          assert s[j + 1] == r[k];
        }
      }
    }
  }

  /** Sorting moves entries without changing which pairs there are. */
  lemma {:induction false} SortPairwise<T>(s: seq<T>, key: KeyOf<T>, rel: Relation<T>)
    requires Pairwise(s, rel)
    ensures Pairwise(Sort(s, key), rel)
  {
    if s != [] {
      SortPairwise(s[1..], key, rel);
      forall y | y in Sort(s[1..], key) ensures rel(s[0], y) && rel(y, s[0]) {
        SameElements(s[1..], key, y);
        var j :| 0 <= j < |s[1..]| && s[1..][j] == y;
        assert s[j + 1] == y;
      }
      InsertPairwise(s[0], Sort(s[1..], key), key, rel);
    }
  }

  lemma SameElements<T>(s: seq<T>, key: KeyOf<T>, y: T)
    ensures y in Sort(s, key) <==> y in s
  {
    SortSorts(s, key);
    assert y in Sort(s, key) <==> y in multiset(Sort(s, key));
    assert y in s <==> y in multiset(s);
  }

  /** Sorting is stable, seen from the last entry: what sorts behind it is strictly greater. */
  lemma {:induction false} SortSplits<T>(s: seq<T>, key: KeyOf<T>) returns (before: seq<T>, after: seq<T>)
    requires s != []
    ensures var last := s[|s| - 1];
            && Sort(s, key) == before + [last] + after
            && (forall y | y in before :: !Less(key(last), key(y)))
            && (forall y | y in after :: Less(key(last), key(y)))
  {
    if |s| == 1 {
      before, after := [], [];
      assert s == [s[0]] && s[1..] == [];
      assert Sort(s[1..], key) == [];
    } else {
      before, after := SortSplits(s[1..], key);
      before, after := InsertSplits(s[0], before, s[|s| - 1], after, key);
    }
  }

  lemma {:induction false} InsertSplits<T>(x: T, a: seq<T>, last: T, b: seq<T>, key: KeyOf<T>)
    returns (before: seq<T>, after: seq<T>)
    requires (forall y | y in a :: !Less(key(last), key(y))) && (forall y | y in b :: Less(key(last), key(y)))
    ensures Insert(x, a + [last] + b, key) == before + [last] + after
    ensures (forall y | y in before :: !Less(key(last), key(y))) && (forall y | y in after :: Less(key(last), key(y)))
  {
    var s := a + [last] + b;
    if !Less(key(s[0]), key(x)) {
      before, after := [x] + a, b;
      assert [x] + s == before + [last] + after;
      assert a != [] ==> s[0] == a[0];
    } else if a == [] {
      assert s[1..] == b;
      InsertElements(x, b, key);
      before, after := [], Insert(x, b, key);
    } else {
      assert s[1..] == a[1..] + [last] + b;
      before, after := InsertSplits(x, a[1..], last, b, key);
      before := [a[0]] + before;
    }
  }

  /** Nothing is hidden by sorting: a pair that is related afterwards was related before. */
  lemma {:induction false} SortPairwiseBack<T>(s: seq<T>, key: KeyOf<T>, rel: Relation<T>)
    requires Pairwise(Sort(s, key), rel)
    ensures Pairwise(s, rel)
  {
    hide Pairwise;
    if s != [] {
      InsertPairwiseBack(s[0], Sort(s[1..], key), key, rel);
      SortPairwiseBack(s[1..], key, rel);
      forall y ensures y in s[1..] ==> rel(s[0], y) && rel(y, s[0]) { SameElements(s[1..], key, y); }
      HeadPairwise(s, rel);
    } else {
      NonePairwise(s, rel);
    }
  }

  lemma NonePairwise<T>(s: seq<T>, rel: Relation<T>)
    requires s == []
    ensures Pairwise(s, rel)
  {
  }

  lemma HeadPairwise<T>(s: seq<T>, rel: Relation<T>)
    requires s != [] && Pairwise(s[1..], rel) && forall y :: y in s[1..] ==> rel(s[0], y) && rel(y, s[0])
    ensures Pairwise(s, rel)
  {
    forall i, j | 0 <= i < |s| && 0 <= j < |s| && i != j ensures rel(s[i], s[j]) {
      if i > 0 { assert s[i] == s[1..][i - 1]; }
      if j > 0 { assert s[j] == s[1..][j - 1]; }
    }
  }

  lemma {:induction false} InsertPairwiseBack<T>(x: T, s: seq<T>, key: KeyOf<T>, rel: Relation<T>)
    requires Pairwise(Insert(x, s, key), rel)
    ensures Pairwise(s, rel) && forall y :: y in s ==> rel(x, y) && rel(y, x)
  {
    var r := Insert(x, s, key);
    if s == [] || !Less(key(s[0]), key(x)) {
      assert r[1..] == s && r[0] == x;
      TailPairwise(r, rel);
    } else {
      assert r[0] == s[0] && r[1..] == Insert(x, s[1..], key);
      TailPairwise(r, rel);
      InsertPairwiseBack(x, s[1..], key, rel);
      InsertElements(x, s[1..], key);
      forall y ensures y == x || y in s[1..] ==> y in r[1..] { InsertHolds(x, s[1..], key, y); }
      HeadPairwise(s, rel);
    }
  }

  lemma InsertHolds<T>(x: T, s: seq<T>, key: KeyOf<T>, y: T)
    ensures y in Insert(x, s, key) <==> y == x || y in s
  {
    InsertElements(x, s, key);
    assert y in Insert(x, s, key) <==> y in multiset(Insert(x, s, key));
    assert y in s <==> y in multiset(s);
  }

  lemma TailPairwise<T>(s: seq<T>, rel: Relation<T>)
    requires s != [] && Pairwise(s, rel)
    ensures Pairwise(s[1..], rel) && forall y :: y in s[1..] ==> rel(s[0], y) && rel(y, s[0])
  {
  }

  /** Sorting leaves an ascending sequence as it is. */
  lemma {:induction false} SortOfAscending<T>(s: seq<T>, key: KeyOf<T>)
    requires Ascending(s, key)
    ensures Sort(s, key) == s
  {
    if s != [] {
      SortOfAscending(s[1..], key);
      assert s[1..] == [] || s[1..][0] == s[1];
    }
  }
}
