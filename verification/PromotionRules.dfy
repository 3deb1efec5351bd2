/** The rules of a promotion on version numbers: which steps are allowed, which lines are supported,
    and what the manifest says afterwards. */
module PromotionRules {
  import opened Json
  import opened PyText
  import opened Versions
  import opened Promotion

  // Steps.

  /** A patch counts the last number up, a minor release the second and a major one the first; the
      numbers behind it start again. Nothing else is a step. */
  lemma StepsExactly(a: Semver, b: Semver)
    ensures ReleaseTransition(a, b) == Some(Patch) <==> b == Semver(a.major, a.minor, a.patch + 1)
    ensures ReleaseTransition(a, b) == Some(Minor) <==> b == Semver(a.major, a.minor + 1, 0)
    ensures ReleaseTransition(a, b) == Some(Major) <==> b == Semver(a.major + 1, 0, 0)
    ensures ReleaseTransition(a, b).Some? ==> Less(a, b)
  {
  }

  /** A candidate is judged safe exactly when it is the next patch, its contracts passed, and its notes
      say that it is maintenance and nothing else. */
  lemma SafeExactly(a: Semver, b: Semver, contractsPassed: bool, materialNotes: bool, safeNotes: bool)
    ensures ClassifyCandidate(a, b, contractsPassed, materialNotes, safeNotes).AutomaticSafe? <==>
            b == Semver(a.major, a.minor, a.patch + 1) && contractsPassed && safeNotes && !materialNotes
    ensures !ClassifyCandidate(a, b, contractsPassed, materialNotes, safeNotes).Unclassified?
  {
    StepsExactly(a, b);
  }

  // The window of supported lines.

  /** The window of a recommendation, version by version: its own line and the one before it are
      supported, the one before that is deprecated, and everything older is rejected. */
  lemma WindowDecides(v: Semver, u: Semver)
    requires RollingRuntimeSupport(v).Some?
    ensures var p := RollingRuntimeSupport(v).value;
            && (LineOf(u) in p.supported <==> u.major == v.major && (u.minor == v.minor || u.minor + 1 == v.minor))
            && (LineOf(u) in p.deprecated <==> u.major == v.major && u.minor + 2 == v.minor)
            && (Less(u, p.rejectedBefore) <==> u.major < v.major || (u.major == v.major && u.minor + 2 < v.minor))
            && p.qualifiedOnly
  {
    assert [Line(v.major, v.minor - 1), Line(v.major, v.minor)][0] == Line(v.major, v.minor - 1);
    assert [Line(v.major, v.minor - 1), Line(v.major, v.minor)][1] == Line(v.major, v.minor);
    assert [Line(v.major, v.minor - 2)][0] == Line(v.major, v.minor - 2);
  }

  /** There is a window exactly when two minor lines come before the recommended one. */
  lemma WindowExactly(v: Semver)
    ensures RollingRuntimeSupport(v).Some? <==> v.minor >= 2
  {
  }

  /** In a valid manifest a tested version is listed as supported, as deprecated or not at all, by its
      line alone; what is listed is never rejected. */
  lemma ListedByLine(m: Manifest, t: Text)
    requires ValidManifest(m)
    ensures var v, u := NumberOf(m.recommended), NumberOf(t);
            && (t in Supported(m) <==> && Release(t, Tested) in m.releases && u.major == v.major
                                       && (u.minor == v.minor || u.minor + 1 == v.minor))
            && (t in Deprecated(m) <==> && Release(t, Tested) in m.releases && u.major == v.major
                                        && u.minor + 2 == v.minor)
            && (t in Supported(m) || t in Deprecated(m) ==> !Less(u, m.policy.rejectedBefore))
  {
    hide Sort, RollingRuntimeSupport, Less;
    var v, u := NumberOf(m.recommended), NumberOf(t);
    WindowDecides(v, u);
    TestedInExact(m.releases, m.policy.supported, t);
    TestedInExact(m.releases, DeprecatedOnly(m.policy), t);
    WithoutExact(m.policy.deprecated, m.policy.supported, LineOf(u));
    SameElements(TestedIn(m.releases, m.policy.supported), KeyOfText, t);
    SameElements(TestedIn(m.releases, DeprecatedOnly(m.policy)), KeyOfText, t);
  }

  // Promotions.

  /** A conclusion is 1 to 2,000 characters, not all of them whitespace, and of the control characters
      only line feed and tab. */
  lemma ConclusionExactly(s: string)
    ensures PlainText(s) <==>
            && !Blank(s) && |s| <= 2_000
            && forall k | 0 <= k < |s| :: s[k] >= ' ' || s[k] == '\n' || s[k] == '\t'
  {
  }

  /** A promotion makes the last candidate recommendation and floor, gives it its window, and adds
      every candidate as tested; no release that was there is lost or changed. */
  lemma PromotionEffect(m: Manifest, items: seq<Evidence>, conclusions: Conclusions, r: Release)
    requires Promotable(m, items, conclusions)
    ensures var n, top := Promoted(m, items), items[|items| - 1].version;
            && n.recommended == n.floor == top
            && RollingRuntimeSupport(NumberOf(top)) == Some(n.policy)
            && |n.releases| == |m.releases| + |items|
            && (r in n.releases <==>
                  || r in m.releases
                  || (r.status.Tested? && exists i :: 0 <= i < |items| && items[i].version == r.version))
            && Ascending(n.releases, KeyOfRelease)
  {
    hide Sort, RollingRuntimeSupport, Admissible, ValidManifest, Ascending;
    var added := NewReleases(items);
    var all := m.releases + added;
    SortSorts(all, KeyOfRelease);
    SameElements(all, KeyOfRelease, r);
    if r in added {
      var k :| 0 <= k < |added| && added[k] == r;
      assert items[k].version == r.version;
    }
    if r.status.Tested? {
      if i :| 0 <= i < |items| && items[i].version == r.version { assert added[i] == r; }
    }
  }

  /** What the promotion asks of every candidate: it is of the current schema with valid contracts,
      new to the manifest, one step above the one before it and compatible, and it has a conclusion
      unless it was judged safe, which only a patch may be. */
  lemma CandidatesQualify(m: Manifest, items: seq<Evidence>, conclusions: Conclusions, i: nat)
    requires Promotable(m, items, conclusions) && i < |items|
    ensures var e, before := items[i], if i == 0 then m.recommended else items[i - 1].version;
            && e.version.Written? && e.schema == 3 && e.contractsValid && e.compatible
            && e.testedBaseline == m.recommended && e.comparison == before
            && (forall r | r in m.releases :: r.version != e.version)
            && (e.classification.HumanReviewRequired? ==> e.version in conclusions)
            && (!e.classification.HumanReviewRequired? ==>
                  var b := NumberOf(before);
                  e.classification.AutomaticSafe? && NumberOf(e.version) == Semver(b.major, b.minor, b.patch + 1))
            && Less(NumberOf(before), NumberOf(e.version))
  {
    hide RollingRuntimeSupport, ValidManifest, PlainText, ReleaseTransition;
    assert Admissible(m.recommended, conclusions, items, i);
    StepsExactly(NumberOf(Previous(m.recommended, items, i)), NumberOf(items[i].version));
    forall r | r in m.releases ensures r.version != items[i].version {
      var k :| 0 <= k < |m.releases| && m.releases[k] == r;
      assert m.releases[k].version != items[i].version;
    }
  }

  /** The invariant of the manifest, release by release: the recommendation is the one greatest tested
      version, no two tested versions have one number, and the inventory is in order. */
  lemma HealthExactly(m: Manifest)
    ensures Healthy(m) <==>
            && ValidManifest(m)
            && (forall r | r in m.releases && r.status.Tested? ::
                  r.version == m.recommended || Less(NumberOf(r.version), NumberOf(m.recommended)))
            && (forall i, j | 0 <= i < j < |m.releases|
                              && m.releases[i].status.Tested? && m.releases[j].status.Tested? ::
                  NumberOf(m.releases[i].version) != NumberOf(m.releases[j].version))
            && (forall i, j | 0 <= i < j < |m.releases| ::
                  !Less(NumberOf(m.releases[j].version), NumberOf(m.releases[i].version)))
  {
  }

  /** Such manifests exist: one tested release with two minor lines before it. */
  lemma OneReleaseIsHealthy(number: Semver)
    requires number.minor >= 2
    ensures var t := Written(false, number);
            Healthy(Manifest(t, t, [Release(t, Tested)], RollingRuntimeSupport(number).value))
  {
    hide Sort, Supported, RollingRuntimeSupport;
    WindowExactly(number);
    var t := Written(false, number);
    var releases := [Release(t, Tested)];
    assert releases[0] == Release(t, Tested);
    SoundIsHealthy(Manifest(t, t, releases, RollingRuntimeSupport(number).value));
  }
}
