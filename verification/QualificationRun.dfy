/** Discovery and matrix together: when what was discovered can be qualified. */
module QualificationRun {
  import opened Json
  import opened Versions
  import opened Discovery
  import opened Promotion

  function TagsOf(releases: seq<Upstream>): (tags: seq<Text>)
    ensures |tags| == |releases| && forall i | 0 <= i < |releases| :: tags[i] == releases[i].tag
  {
    seq(|releases|, i requires 0 <= i < |releases| => releases[i].tag)
  }

  predicate OtherBare(a: Upstream, b: Upstream) { Bare(a.tag) != Bare(b.tag) }

  /** At most ten releases, and no version in two spellings. */
  predicate Qualifiable(unseen: seq<Upstream>) {
    |unseen| <= MAX_QUALIFICATION_CHAIN && Pairwise(unseen, OtherBare)
  }

  lemma {:induction false} UnseenAreWritten(a: Ask, listing: seq<Upstream>)
    ensures forall u :: u in Unseen(a, listing) ==> u.tag.Written?
  {
    if listing != [] { UnseenAreWritten(a, listing[..|listing| - 1]); }
  }

  lemma PairwiseBare(releases: seq<Upstream>)
    ensures Pairwise(releases, OtherBare) <==> DistinctBare(TagsOf(releases))
  {
    if DistinctBare(TagsOf(releases)) {
      forall i, j | 0 <= i < |releases| && 0 <= j < |releases| && i != j ensures OtherBare(releases[i], releases[j]) {
        assert i < j ==> Bare(TagsOf(releases)[i]) != Bare(TagsOf(releases)[j]);
        assert j < i ==> Bare(TagsOf(releases)[j]) != Bare(TagsOf(releases)[i]);
      }
    }
    if Pairwise(releases, OtherBare) {
      forall i, j | 0 <= i < j < |releases| ensures Bare(TagsOf(releases)[i]) != Bare(TagsOf(releases)[j]) {
        assert OtherBare(releases[i], releases[j]);
      }
    }
  }

  /** The sorted discovery is in matrix order already, and the matrix takes it exactly when the
      releases found are qualifiable. */
  lemma DiscoveredIsMatrixInput(unseen: seq<Upstream>)
    requires forall u :: u in unseen ==> u.tag.Written?
    ensures var tags := TagsOf(Sort(unseen, KeyOfUpstream));
            && Sort(tags, KeyOfText) == tags && (forall t :: t in tags ==> t.Written?)
            && (|tags| <= MAX_QUALIFICATION_CHAIN && DistinctBare(Sort(tags, KeyOfText)) <==> Qualifiable(unseen))
  {
    hide Sort, Pairwise, DistinctBare, OtherBare;
    var sorted := Sort(unseen, KeyOfUpstream);
    var tags := TagsOf(sorted);
    SortSorts(unseen, KeyOfUpstream);
    SameOrder(sorted);
    SortOfAscending(tags, KeyOfText);
    forall t ensures t in tags ==> t.Written? {
      if i :| 0 <= i < |tags| && tags[i] == t {
        assert sorted[i] in sorted;
        SameElements(unseen, KeyOfUpstream, sorted[i]);
      }
    }
    PairwiseBare(sorted);
    if Pairwise(unseen, OtherBare) { SortPairwise(unseen, KeyOfUpstream, OtherBare); }
    if Pairwise(sorted, OtherBare) { SortPairwiseBack(unseen, KeyOfUpstream, OtherBare); }
  }

  lemma SameOrder(releases: seq<Upstream>)
    requires Ascending(releases, KeyOfUpstream)
    ensures Ascending(TagsOf(releases), KeyOfText)
  {
    var tags := TagsOf(releases);
    forall i, j | 0 <= i < j < |tags| ensures !Less(KeyOfText(tags[j]), KeyOfText(tags[i])) {
      assert !Less(KeyOfUpstream(releases[j]), KeyOfUpstream(releases[i]));
    }
  }

  /** The two commands one after the other. They succeed exactly when discovery does and what it
      found is qualifiable; every entry is then compared with the one before it. */
  method PlanQualification(a: Ask, listing: seq<Upstream>, baseline: Text) returns (r: Result<seq<MatrixEntry>>)
    ensures var unseen := Unseen(a, Seen(a, listing));
            && (r.Ok? <==> (&& ValidAsk(a) && Exhausted(a, listing) && FindsCeiling(a, unseen)
                            && Qualifiable(unseen)))
            && (r.Ok? ==> IsMatrix(r.value, TagsOf(Sort(unseen, KeyOfUpstream)), baseline))
  {
    hide Sort, Unseen, Exhausted, IsMatrix, Reach, Qualifiable, DistinctBare;
    SeenIs(a, listing);
    UnseenAreWritten(a, Seen(a, listing));
    DiscoveredIsMatrixInput(Unseen(a, Seen(a, listing)));
    var found := DiscoverUnseen(a, listing);
    if found.Err? { return Err; }
    r := QualificationMatrix(baseline, TagsOf(found.value));
  }

  const BARE_1_6_0 := Upstream(Written(false, Semver(1, 6, 0)), false, false)
  const TAGGED_1_6_0 := Upstream(Written(true, Semver(1, 6, 0)), false, false)

  /** One version in two spellings passes discovery and is refused by the matrix. */
  lemma TwoSpellingsAreRefused()
    ensures var a, listing := ABOVE_1_5_0, [TAGGED_1_6_0, BARE_1_6_0];
            && ValidAsk(a) && Exhausted(a, listing) && FindsCeiling(a, Unseen(a, Seen(a, listing)))
            && Unseen(a, Seen(a, listing)) == listing && !Qualifiable(listing)
  {
    var a, listing := ABOVE_1_5_0, [TAGGED_1_6_0, BARE_1_6_0];
    hide Reach, HasFloor;
    ReachAt(a, listing, 1);
    SeenIs(a, listing);
    assert Seen(a, listing) == listing;
    assert listing[..1] == [TAGGED_1_6_0] && [TAGGED_1_6_0][..0] == [];
    assert Unseen(a, []) == [];
    assert Unseen(a, [TAGGED_1_6_0]) == [TAGGED_1_6_0];
    assert !OtherBare(listing[0], listing[1]);
  }
}
