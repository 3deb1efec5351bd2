/** The support manifest: the chain of qualified releases and what promoting it does. */
module Promotion {
  import opened Json
  import opened PyText
  import opened Versions

  const MAX_QUALIFICATION_CHAIN := 10

  // The manifest.

  datatype Line = Line(major: nat, minor: nat)

  datatype Policy = Policy(supported: seq<Line>, deprecated: seq<Line>, rejectedBefore: Semver, qualifiedOnly: bool)

  datatype Status = Tested | ObservedCandidate

  /** One release entry; its assets and evidence files are not part of this model. */
  datatype Release = Release(version: Text, status: Status)

  datatype Manifest = Manifest(recommended: Text, floor: Text, releases: seq<Release>, policy: Policy)

  function LineOf(v: Semver): Line { Line(v.major, v.minor) }

  /** The three-line policy: two supported minor lines and the deprecated one before them. */
  function RollingRuntimeSupport(v: Semver): Option<Policy> {
    if v.minor < 2 then None
    else Some(Policy([Line(v.major, v.minor - 1), Line(v.major, v.minor)], [Line(v.major, v.minor - 2)],
                     Semver(v.major, v.minor - 2, 0), true))
  }

  function KeyOfText(t: Text): Semver { NumberOf(t) }

  function KeyOfRelease(r: Release): Semver { NumberOf(r.version) }

  /** The tested versions whose line is among `lines`, in inventory order. */
  function TestedIn(releases: seq<Release>, lines: seq<Line>): seq<Text> {
    if releases == [] then []
    else
      var last := releases[|releases| - 1];
      TestedIn(releases[..|releases| - 1], lines) +
      (if last.status.Tested? && LineOf(NumberOf(last.version)) in lines then [last.version] else [])
  }

  predicate WrittenReleases(releases: seq<Release>) {
    forall i | 0 <= i < |releases| :: releases[i].version.Written?
  }

  function Supported(m: Manifest): seq<Text> {
    Sort(TestedIn(m.releases, m.policy.supported), KeyOfText)
  }

  /** A line listed as supported is never read as deprecated. */
  function DeprecatedOnly(p: Policy): seq<Line> {
    Without(p.deprecated, p.supported)
  }

  function Without(lines: seq<Line>, others: seq<Line>): seq<Line> {
    if lines == [] then []
    else (if lines[0] in others then [] else [lines[0]]) + Without(lines[1..], others)
  }

  function Deprecated(m: Manifest): seq<Text> {
    Sort(TestedIn(m.releases, DeprecatedOnly(m.policy)), KeyOfText)
  }

  lemma {:induction false} WithoutExact(lines: seq<Line>, others: seq<Line>, l: Line)
    ensures l in Without(lines, others) <==> l in lines && l !in others
  {
    if lines != [] {
      WithoutExact(lines[1..], others, l);
    }
  }

  method QualifiedRuntimeVersions(m: Manifest) returns (supported: seq<Text>, deprecated: seq<Text>)
    requires WrittenReleases(m.releases)
    ensures supported == Supported(m) && deprecated == Deprecated(m)
  {
    supported, deprecated := [], [];
    for i := 0 to |m.releases|
      invariant supported == TestedIn(m.releases[..i], m.policy.supported)
      invariant deprecated == TestedIn(m.releases[..i], DeprecatedOnly(m.policy))
    {
      var entry := m.releases[i];
      assert m.releases[..i + 1][..i] == m.releases[..i];
      if entry.status.Tested? {
        var line := LineOf(entry.version.number);
        WithoutExact(m.policy.deprecated, m.policy.supported, line);
        if line in m.policy.supported {
          supported := supported + [entry.version];
        } else if line in m.policy.deprecated {
          deprecated := deprecated + [entry.version];
        }
      }
    }
    assert m.releases[..|m.releases|] == m.releases;
    supported, deprecated := Sort(supported, KeyOfText), Sort(deprecated, KeyOfText);
  }

  predicate DistinctVersions(releases: seq<Release>) {
    forall i, j | 0 <= i < j < |releases| :: releases[i].version != releases[j].version
  }

  /** The part of manifest validation that speaks about versions. */
  predicate ValidManifest(m: Manifest) {
    && m.recommended.Written? && m.floor.Written?
    && !Less(m.recommended.number, m.floor.number)
    && m.releases != [] && WrittenReleases(m.releases) && DistinctVersions(m.releases)
    && Release(m.recommended, Tested) in m.releases
    && RollingRuntimeSupport(m.recommended.number) == Some(m.policy)
    && var supported := Supported(m);
       supported != [] && supported[|supported| - 1] == m.recommended
  }

  method ValidateManifest(m: Manifest) returns (ok: bool)
    ensures ok <==> ValidManifest(m)
  {
    if !m.recommended.Written? || !m.floor.Written? { return false; }
    if Less(m.recommended.number, m.floor.number) { return false; }
    if m.releases == [] { return false; }
    var versions: set<Text>, found := {}, false;
    for i := 0 to |m.releases|
      invariant WrittenReleases(m.releases[..i]) && DistinctVersions(m.releases[..i])
      invariant versions == set k | 0 <= k < i :: m.releases[k].version
      invariant forall k | 0 <= k < i && m.releases[k].version == m.recommended :: m.releases[k].status.Tested?
      invariant found <==> Release(m.recommended, Tested) in m.releases[..i]
    {
      var entry := m.releases[i];
      if !entry.version.Written? { return false; }
      if entry.version in versions {
        var k :| 0 <= k < i && m.releases[k].version == entry.version;
        assert m.releases[k].version == m.releases[i].version;
        return false;
      }
      if entry.version == m.recommended {
        if !entry.status.Tested? {
          OnlyOneStatus(m, i);
          return false;
        }
        found := true;
      }
      assert m.releases[..i + 1] == m.releases[..i] + [entry];
      versions := versions + {entry.version};
    }
    assert m.releases[..|m.releases|] == m.releases;
    if !found { return false; }
    var expected := RollingRuntimeSupport(m.recommended.number);
    if expected.None? || expected.value != m.policy { return false; }
    var supported, _ := QualifiedRuntimeVersions(m);
    return supported != [] && supported[|supported| - 1] == m.recommended;
  }

  lemma OnlyOneStatus(m: Manifest, i: nat)
    requires i < |m.releases| && m.releases[i] == Release(m.recommended, ObservedCandidate)
    ensures !(DistinctVersions(m.releases) && Release(m.recommended, Tested) in m.releases)
  {
    if Release(m.recommended, Tested) in m.releases {
      var j :| 0 <= j < |m.releases| && m.releases[j] == Release(m.recommended, Tested);
      assert m.releases[i].version == m.releases[j].version;
    }
  }

  // The matrix of releases to qualify.

  datatype MatrixEntry = MatrixEntry(comparison: Text, tag: Text, testedBaseline: Text)

  /** The entries for tags already sorted: each is compared with the one before it. */
  predicate IsMatrix(entries: seq<MatrixEntry>, tags: seq<Text>, baseline: Text) {
    && |entries| == |tags|
    && forall i | 0 <= i < |tags| :: entries[i] == MatrixEntryAt(tags, i, baseline)
  }

  function MatrixEntryAt(tags: seq<Text>, i: nat, baseline: Text): MatrixEntry
    requires i < |tags|
  {
    MatrixEntry(if i == 0 then baseline else Bare(tags[i - 1]), Tagged(tags[i]), baseline)
  }

  /** `f"v{version}"` */
  function Tagged(t: Text): Text {
    match t
    case Invalid => Invalid
    case Written(_, n) => Written(true, n)
  }

  predicate DistinctBare(tags: seq<Text>) {
    forall i, j | 0 <= i < j < |tags| :: Bare(tags[i]) != Bare(tags[j])
  }

  predicate AllWritten(tags: seq<Text>) {
    forall i | 0 <= i < |tags| :: tags[i].Written?
  }

  /** Sorting loses no text and adds none. */
  lemma SortedTags(tags: seq<Text>)
    ensures |Sort(tags, KeyOfText)| == |tags| && Ascending(Sort(tags, KeyOfText), KeyOfText)
    ensures AllWritten(Sort(tags, KeyOfText)) <==> forall t :: t in tags ==> t.Written?
  {
    SortSorts(tags, KeyOfText);
    var ordered := Sort(tags, KeyOfText);
    assert forall t :: t in tags <==> t in multiset(ordered);
    assert forall t :: t in multiset(ordered) <==> t in ordered;
  }

  method QualificationMatrix(baseline: Text, tags: seq<Text>) returns (r: Result<seq<MatrixEntry>>)
    ensures r.Ok? <==>
      (&& |tags| <= MAX_QUALIFICATION_CHAIN && (forall t :: t in tags ==> t.Written?)
       && DistinctBare(Sort(tags, KeyOfText)))
    ensures r.Ok? ==> IsMatrix(r.value, Sort(tags, KeyOfText), baseline)
  {
    hide Sort, Ascending, IsMatrix;
    SortedTags(tags);
    if |tags| > MAX_QUALIFICATION_CHAIN { return Err; }
    var ordered := Sort(tags, KeyOfText);
    if !AllWritten(ordered) { return Err; }
    r := EntriesOf(baseline, ordered);
  }

  method EntriesOf(baseline: Text, ordered: seq<Text>) returns (r: Result<seq<MatrixEntry>>)
    requires AllWritten(ordered)
    ensures r.Ok? <==> DistinctBare(ordered)
    ensures r.Ok? ==> IsMatrix(r.value, ordered, baseline)
  {
    var comparison, entries := baseline, [];
    var seen: set<Text> := {};
    for i := 0 to |ordered|
      invariant DistinctBare(ordered[..i]) && seen == set k | 0 <= k < i :: Bare(ordered[k])
      invariant comparison == if i == 0 then baseline else Bare(ordered[i - 1])
      invariant IsMatrix(entries, ordered[..i], baseline)
    {
      var version := Bare(ordered[i]);
      if version in seen { return Err; }
      seen := seen + {version};
      entries := entries + [MatrixEntry(comparison, Tagged(version), baseline)];
      comparison := version;
    }
    assert ordered[..|ordered|] == ordered;
    return Ok(entries);
  }

  // Evidence.

  datatype Classification = AutomaticSafe | HumanReviewRequired | Unclassified

  datatype Evidence = Evidence(version: Text, schema: int, testedBaseline: Text, comparison: Text,
                               compatible: bool, classification: Classification, contractsValid: bool)

  function KeyOfEvidence(e: Evidence): Semver { NumberOf(e.version) }

  /** Only unambiguous same-minor patches are automatic-safe. */
  function ClassifyCandidate(comparison: Semver, version: Semver, contractsPassed: bool,
                             materialNotes: bool, safeNotes: bool): Classification
  {
    if ReleaseTransition(comparison, version) != Some(Patch) || !contractsPassed || materialNotes || !safeNotes
    then HumanReviewRequired else AutomaticSafe
  }

  /** The version item `i` of a sorted chain is compared with. */
  function Previous(baseline: Text, items: seq<Evidence>, i: nat): Text
    requires i < |items|
  {
    if i == 0 then baseline else items[i - 1].version
  }

  predicate Observed(baseline: Text, items: seq<Evidence>, i: nat)
    requires i < |items|
  {
    var e := items[i];
    && (forall j | 0 <= j < i :: items[j].version != e.version)
    && (e.schema == 2 || e.schema == 3) && e.testedBaseline == baseline
    && e.comparison == Previous(baseline, items, i) && e.compatible && !e.classification.Unclassified?
  }

  /** The chain contract of an assessment. */
  predicate ObservedChain(baseline: Text, items: seq<Evidence>) {
    && 0 < |items| <= MAX_QUALIFICATION_CHAIN
    && WrittenEvidence(items)
    && (forall i | 0 <= i < |items| :: Observed(baseline, items, i))
  }

  predicate PatchStep(baseline: Text, items: seq<Evidence>, i: nat)
    requires i < |items|
  {
    ReleaseTransition(NumberOf(Previous(baseline, items, i)), NumberOf(items[i].version)) == Some(Patch)
  }

  datatype Assessment = Assessment(automatic: bool, contiguous: bool, target: Text, versions: seq<Text>)

  function VersionsOf(items: seq<Evidence>): (r: seq<Text>)
    ensures |r| == |items|
    ensures forall i | 0 <= i < |items| :: r[i] == items[i].version
  {
    seq(|items|, i requires 0 <= i < |items| => items[i].version)
  }

  predicate Contiguous(baseline: Text, items: seq<Evidence>) {
    forall i | 0 <= i < |items| :: PatchStep(baseline, items, i)
  }

  predicate AllSafe(items: seq<Evidence>) {
    forall i | 0 <= i < |items| :: items[i].classification.AutomaticSafe?
  }

  predicate WrittenEvidence(items: seq<Evidence>) {
    forall i | 0 <= i < |items| :: items[i].version.Written?
  }

  method AssessAutomaticChain(baseline: Text, evidences: seq<Evidence>) returns (r: Result<Assessment>)
    requires baseline.Written?
    ensures var items := Sort(evidences, KeyOfEvidence);
            && (r.Ok? <==> ObservedChain(baseline, items))
            && (r.Ok? ==>
                  && r.value.versions == VersionsOf(items) && r.value.target == items[|items| - 1].version
                  && (r.value.contiguous <==> Contiguous(baseline, items))
                  && (r.value.automatic <==> Contiguous(baseline, items) && AllSafe(items)))
  {
    hide Sort, Ascending, Observed, VersionsOf, Contiguous, AllSafe;
    if |evidences| == 0 || |evidences| > MAX_QUALIFICATION_CHAIN {
      SortSorts(evidences, KeyOfEvidence);
      return Err;
    }
    var items := Sort(evidences, KeyOfEvidence);
    SortSorts(evidences, KeyOfEvidence);
    if !WrittenEvidence(items) { return Err; }
    r := AssessOrdered(baseline, items);
  }

  method AssessOrdered(baseline: Text, items: seq<Evidence>) returns (r: Result<Assessment>)
    requires baseline.Written? && 0 < |items| <= MAX_QUALIFICATION_CHAIN && WrittenEvidence(items)
    ensures r.Ok? <==> ObservedChain(baseline, items)
    ensures r.Ok? ==>
      && r.value.versions == VersionsOf(items) && r.value.target == items[|items| - 1].version
      && (r.value.contiguous <==> Contiguous(baseline, items))
      && (r.value.automatic <==> Contiguous(baseline, items) && AllSafe(items))
  {
    hide ReleaseTransition;
    var comparison, versions, contiguous, automatic := baseline, [], true, true;
    for i := 0 to |items|
      invariant comparison == if i == 0 then baseline else items[i - 1].version
      invariant versions == VersionsOf(items)[..i]
      invariant forall k | 0 <= k < i :: Observed(baseline, items, k)
      invariant contiguous <==> forall k | 0 <= k < i :: PatchStep(baseline, items, k)
      invariant automatic <==> forall k | 0 <= k < i :: items[k].classification.AutomaticSafe?
    {
      var e := items[i];
      NotYetSeen(items, i);
      assert Observed(baseline, items, i) ==> e.version !in versions;
      if e.version in versions { return Err; }
      ghost var patch := PatchStep(baseline, items, i);
      if ReleaseTransition(NumberOf(comparison), NumberOf(e.version)) != Some(Patch) { contiguous := false; }
      if (e.schema != 2 && e.schema != 3) || e.testedBaseline != baseline || e.comparison != comparison
         || !e.compatible || e.classification.Unclassified? {
        return Err;
      }
      versions := versions + [e.version];
      automatic := automatic && e.classification.AutomaticSafe?;
      comparison := e.version;
    }
    return Ok(Assessment(contiguous && automatic, contiguous, versions[|versions| - 1], versions));
  }

  lemma NotYetSeen(items: seq<Evidence>, i: nat)
    requires i < |items|
    ensures items[i].version in VersionsOf(items)[..i] <==>
            exists j :: 0 <= j < i && items[j].version == items[i].version
  {
    var before := VersionsOf(items)[..i];
    assert forall j | 0 <= j < i :: before[j] == items[j].version;
    if items[i].version in before {
      var j :| 0 <= j < |before| && before[j] == items[i].version;
      assert items[j].version == items[i].version;
    }
    if j :| 0 <= j < i && items[j].version == items[i].version {
      assert before[j] == items[i].version;
    }
  }

  /** Evidence that qualifies one matrix entry. */
  predicate Qualifies(e: Evidence, entry: MatrixEntry) {
    && e.version == Bare(entry.tag) && e.comparison == entry.comparison && e.testedBaseline == entry.testedBaseline
    && (e.schema == 2 || e.schema == 3) && e.compatible && !e.classification.Unclassified?
  }

  /** Distinct tags in version order are strictly ascending. */
  lemma DistinctTagsAscend(tags: seq<Text>)
    requires AllWritten(tags) && DistinctBare(tags) && Ascending(tags, KeyOfText)
    ensures StrictlyAscending(tags, KeyOfText)
  {
    forall i, j | 0 <= i < j < |tags| ensures Less(KeyOfText(tags[i]), KeyOfText(tags[j])) {
      assert Bare(tags[i]) != Bare(tags[j]);
    }
  }

  predicate QualifiesAll(chain: seq<Evidence>, entries: seq<MatrixEntry>) {
    |chain| == |entries| && forall i | 0 <= i < |entries| :: Qualifies(chain[i], entries[i])
  }

  /** Chain composition: compatible evidence for the entries of a matrix, gathered in any
      order, satisfies the chain contract of the assessment. */
  lemma MatrixEvidenceIsObserved(baseline: Text, tags: seq<Text>, chain: seq<Evidence>, shuffled: seq<Evidence>,
                                 entries: seq<MatrixEntry>)
    requires 0 < |tags| <= MAX_QUALIFICATION_CHAIN && forall t :: t in tags ==> t.Written?
    requires DistinctBare(Sort(tags, KeyOfText))
    requires IsMatrix(entries, Sort(tags, KeyOfText), baseline) && QualifiesAll(chain, entries)
    requires multiset(shuffled) == multiset(chain)
    ensures Sort(shuffled, KeyOfEvidence) == chain && ObservedChain(baseline, chain)
  {
    hide *;
    var ordered := Sort(tags, KeyOfText);
    SortedTags(tags);
    DistinctTagsAscend(ordered);
    ChainAscends(baseline, ordered, chain, entries);
    SortRestores(chain, shuffled, KeyOfEvidence);
    ChainObserved(baseline, ordered, chain, entries);
  }

  lemma ChainAscends(baseline: Text, ordered: seq<Text>, chain: seq<Evidence>, entries: seq<MatrixEntry>)
    requires AllWritten(ordered) && StrictlyAscending(ordered, KeyOfText)
    requires IsMatrix(entries, ordered, baseline) && QualifiesAll(chain, entries)
    ensures StrictlyAscending(chain, KeyOfEvidence)
  {
    hide Less;
    forall i | 0 <= i < |chain| ensures KeyOfEvidence(chain[i]) == KeyOfText(ordered[i]) {
      assert Qualifies(chain[i], entries[i]);
    }
  }

  lemma ChainObserved(baseline: Text, ordered: seq<Text>, chain: seq<Evidence>, entries: seq<MatrixEntry>)
    requires 0 < |ordered| <= MAX_QUALIFICATION_CHAIN && AllWritten(ordered)
    requires IsMatrix(entries, ordered, baseline) && QualifiesAll(chain, entries)
             && StrictlyAscending(chain, KeyOfEvidence)
    ensures ObservedChain(baseline, chain)
  {
    forall i | 0 <= i < |chain| ensures chain[i].version == Bare(ordered[i]) && Qualifies(chain[i], entries[i]) {
    }
    forall i | 0 <= i < |chain| ensures Observed(baseline, chain, i) {
      forall j | 0 <= j < i ensures chain[j].version != chain[i].version {
        assert Less(KeyOfEvidence(chain[j]), KeyOfEvidence(chain[i]));
      }
    }
  }

  /** A contiguous chain counts up patch by patch from its baseline. */
  lemma {:induction false} PatchesCountUp(baseline: Text, items: seq<Evidence>, i: nat)
    requires baseline.Written? && i < |items| && WrittenEvidence(items) && Contiguous(baseline, items)
    ensures var b := baseline.number;
            items[i].version.number == Semver(b.major, b.minor, b.patch + i + 1)
  {
    assert PatchStep(baseline, items, i);
    if i > 0 {
      PatchesCountUp(baseline, items, i - 1);
    }
  }

  /** Each evidence was classified against the version it was compared with. */
  ghost predicate Classified(items: seq<Evidence>) {
    forall i | 0 <= i < |items| :: items[i].classification.AutomaticSafe? ==>
      exists passed, material, safe ::
        ClassifyCandidate(NumberOf(items[i].comparison), NumberOf(items[i].version), passed, material, safe)
          == AutomaticSafe
  }

  /** For evidence classified that way, a chain of safe candidates has no gap: the verdict is the
      conjunction of the classifications, and the target is the baseline plus one patch each. */
  lemma SafeChainsAreContiguous(baseline: Text, items: seq<Evidence>)
    requires baseline.Written? && ObservedChain(baseline, items) && Classified(items) && AllSafe(items)
    ensures Contiguous(baseline, items)
    ensures var b := baseline.number;
            items[|items| - 1].version.number == Semver(b.major, b.minor, b.patch + |items|)
  {
    forall i | 0 <= i < |items| ensures PatchStep(baseline, items, i) {
      assert Observed(baseline, items, i) && items[i].classification.AutomaticSafe?;
    }
    PatchesCountUp(baseline, items, |items| - 1);
  }

  // Promotion.

  /** Human conclusions, by the version they speak about. */
  type Conclusions = map<Text, string>

  predicate PlainText(c: string) {
    !Blank(c) && |c| <= 2000 && forall i | 0 <= i < |c| :: c[i] >= ' ' || c[i] == '\n' || c[i] == '\t'
  }

  /** What promotion asks of evidence `i` of the sorted chain. */
  predicate Admissible(current: Text, conclusions: Conclusions, items: seq<Evidence>, i: nat)
    requires i < |items|
  {
    var e := items[i];
    var transition := ReleaseTransition(NumberOf(Previous(current, items, i)), NumberOf(e.version));
    && (forall j | 0 <= j < i :: items[j].version != e.version)
    && transition.Some? && e.compatible
    && (transition != Some(Patch) ==> (e.schema == 2 || e.schema == 3) && e.classification.HumanReviewRequired?)
    && (if e.schema == 2 || e.schema == 3
        then e.testedBaseline == current && e.comparison == Previous(current, items, i)
        else e.schema == 1 && |items| == 1)
    && !e.classification.Unclassified?
    && (e.version in conclusions ==> PlainText(conclusions[e.version]))
    && (e.classification.HumanReviewRequired? ==> e.version in conclusions)
  }

  predicate Current(items: seq<Evidence>) {
    forall i | 0 <= i < |items| :: items[i].schema == 3 && items[i].contractsValid
  }

  predicate Fresh(releases: seq<Release>, items: seq<Evidence>) {
    forall i, j | 0 <= i < |releases| && 0 <= j < |items| :: releases[i].version != items[j].version
  }

  predicate Promotable(m: Manifest, items: seq<Evidence>, conclusions: Conclusions) {
    && ValidManifest(m) && 0 < |items| <= MAX_QUALIFICATION_CHAIN && WrittenEvidence(items)
    && (forall i | 0 <= i < |items| :: Admissible(m.recommended, conclusions, items, i))
    && (forall v | v in conclusions :: v in VersionsOf(items))
    && Current(items) && Fresh(m.releases, items)
    && RollingRuntimeSupport(NumberOf(items[|items| - 1].version)).Some?
  }

  function NewReleases(items: seq<Evidence>): (r: seq<Release>)
    ensures |r| == |items|
    ensures forall i | 0 <= i < |items| :: r[i] == Release(items[i].version, Tested)
  {
    seq(|items|, i requires 0 <= i < |items| => Release(items[i].version, Tested))
  }

  function Promoted(m: Manifest, items: seq<Evidence>): Manifest
    requires |items| > 0 && RollingRuntimeSupport(NumberOf(items[|items| - 1].version)).Some?
  {
    var version := items[|items| - 1].version;
    Manifest(version, version, Sort(m.releases + NewReleases(items), KeyOfRelease),
             RollingRuntimeSupport(NumberOf(version)).value)
  }

  method PrepareUpdate(m: Manifest, evidences: seq<Evidence>, conclusions: Conclusions) returns (r: Result<Manifest>)
    ensures var items := Sort(evidences, KeyOfEvidence);
            && (r.Ok? <==> Promotable(m, items, conclusions))
            && (r.Ok? ==> r.value == Promoted(m, items))
  {
    hide Sort, ValidManifest, Admissible, Ascending;
    var valid := ValidateManifest(m);
    var items := Sort(evidences, KeyOfEvidence);
    SortSorts(evidences, KeyOfEvidence);
    if !valid || |evidences| == 0 || |evidences| > MAX_QUALIFICATION_CHAIN { return Err; }
    if !WrittenEvidence(items) { return Err; }
    var admissible, versions := CheckChain(m.recommended, items, conclusions);
    if !admissible { return Err; }
    if exists v :: v in conclusions && v !in versions { return Err; }
    if exists i :: 0 <= i < |items| && (items[i].schema != 3 || !items[i].contractsValid) { return Err; }
    if exists i, j :: 0 <= i < |m.releases| && 0 <= j < |items| && m.releases[i].version == items[j].version {
      return Err;
    }
    r := Overwrite(m, items);
  }

  method Overwrite(m: Manifest, items: seq<Evidence>) returns (r: Result<Manifest>)
    requires |items| > 0
    ensures r.Ok? <==> RollingRuntimeSupport(NumberOf(items[|items| - 1].version)).Some?
    ensures r.Ok? ==> r.value == Promoted(m, items)
  {
    hide Sort, RollingRuntimeSupport;
    var releases := m.releases;
    for i := 0 to |items|
      invariant releases == m.releases + NewReleases(items)[..i]
    {
      releases := releases + [Release(items[i].version, Tested)];
    }
    assert NewReleases(items)[..|items|] == NewReleases(items);
    var version := items[|items| - 1].version;
    var policy := RollingRuntimeSupport(NumberOf(version));
    if policy.None? { return Err; }
    return Ok(Manifest(version, version, Sort(releases, KeyOfRelease), policy.value));
  }

  /** The walk along the sorted chain; it stops at the first evidence it refuses. */
  method CheckChain(current: Text, items: seq<Evidence>, conclusions: Conclusions)
    returns (ok: bool, versions: seq<Text>)
    requires WrittenEvidence(items)
    ensures ok <==> forall i | 0 <= i < |items| :: Admissible(current, conclusions, items, i)
    ensures ok ==> versions == VersionsOf(items)
  {
    hide ReleaseTransition, PlainText;
    var expected := current;
    versions := [];
    for i := 0 to |items|
      invariant expected == if i == 0 then current else items[i - 1].version
      invariant versions == VersionsOf(items)[..i]
      invariant forall k | 0 <= k < i :: Admissible(current, conclusions, items, k)
    {
      var e := items[i];
      ghost var good := Admissible(current, conclusions, items, i);
      NotYetSeen(items, i);
      if e.version in versions { return false, versions; }
      var transition := ReleaseTransition(NumberOf(expected), NumberOf(e.version));
      if transition.None? { return false, versions; }
      if transition != Some(Patch) && e.schema != 2 && e.schema != 3 { return false, versions; }
      if !e.compatible { return false, versions; }
      if e.schema == 2 || e.schema == 3 {
        if e.testedBaseline != current || e.comparison != expected { return false, versions; }
      } else if e.schema != 1 || |items| != 1 {
        return false, versions;
      }
      if e.version in conclusions && !PlainText(conclusions[e.version]) { return false, versions; }
      if e.classification.HumanReviewRequired? {
        if e.version !in conclusions { return false, versions; }
      } else if !e.classification.AutomaticSafe? {
        return false, versions;
      }
      if transition != Some(Patch) && !e.classification.HumanReviewRequired? { return false, versions; }
      assert good;
      versions := versions + [e.version];
      expected := e.version;
    }
    return true, versions;
  }

  /** From assessment to promotion: a chain that was judged automatic against the manifest's own
      recommendation is promotable without any human conclusion, provided its evidence is of the
      current schema and its versions are new. */
  lemma AutomaticChainsArePromotable(m: Manifest, items: seq<Evidence>)
    requires ValidManifest(m) && ObservedChain(m.recommended, items)
    requires Contiguous(m.recommended, items) && AllSafe(items)
    requires Current(items) && Fresh(m.releases, items)
    ensures Promotable(m, items, map[])
  {
    hide Supported, Sort;
    PatchesCountUp(m.recommended, items, |items| - 1);
    forall i | 0 <= i < |items| ensures Admissible(m.recommended, map[], items, i) {
      assert Observed(m.recommended, items, i) && PatchStep(m.recommended, items, i);
      assert items[i].classification.AutomaticSafe?;
    }
  }

  // What every promotion keeps.

  predicate Apart(a: Release, b: Release) {
    a.status.Tested? && b.status.Tested? ==> NumberOf(a.version) != NumberOf(b.version)
  }

  predicate OtherVersion(a: Release, b: Release) { a.version != b.version }

  predicate TestedUpTo(releases: seq<Release>, top: Semver) {
    forall r | r in releases && r.status.Tested? :: !Less(top, NumberOf(r.version))
  }

  /** The manifest invariant. Validation alone does not give the last three parts. */
  predicate Healthy(m: Manifest) {
    && ValidManifest(m)
    && TestedUpTo(m.releases, NumberOf(m.recommended))
    && Pairwise(m.releases, Apart)
    && Ascending(m.releases, KeyOfRelease)
  }

  /** The facts about an inventory that its order does not touch. */
  predicate Sound(releases: seq<Release>, top: Text) {
    && top.Written? && Release(top, Tested) in releases && WrittenReleases(releases)
    && Pairwise(releases, OtherVersion) && Pairwise(releases, Apart) && TestedUpTo(releases, NumberOf(top))
  }

  /** Every promotion keeps the invariant, pins the floor to the recommendation and moves it up. */
  lemma PromotionKeepsHealth(m: Manifest, items: seq<Evidence>, conclusions: Conclusions)
    requires Healthy(m) && Promotable(m, items, conclusions)
    ensures var n := Promoted(m, items);
            && Healthy(n) && n.floor == n.recommended == items[|items| - 1].version
            && Less(NumberOf(m.recommended), NumberOf(n.recommended))
            && multiset(n.releases) == multiset(m.releases) + multiset(NewReleases(items))
  {
    hide Sort, Supported, Admissible, PlainText, Sound, Pairwise, NewReleases;
    var top, all := items[|items| - 1].version, m.releases + NewReleases(items);
    SortSorts(all, KeyOfRelease);
    ChainClimbs(m.recommended, conclusions, items, |items| - 1);
    JoinIsSound(m, items, conclusions);
    SortIsSound(all, top);
    SoundIsHealthy(Promoted(m, items));
  }

  lemma JoinIsSound(m: Manifest, items: seq<Evidence>, conclusions: Conclusions)
    requires Healthy(m) && Promotable(m, items, conclusions)
    ensures Sound(m.releases + NewReleases(items), items[|items| - 1].version)
  {
    hide Sort, Supported, Admissible, PlainText, RollingRuntimeSupport, Ascending;
    var n, added, top := |m.releases|, NewReleases(items), items[|items| - 1].version;
    var all := m.releases + added;
    forall i | 0 <= i < |items|
      ensures Less(NumberOf(m.recommended), NumberOf(items[i].version))
      ensures forall k | 0 <= k < i :: Less(NumberOf(items[k].version), NumberOf(items[i].version))
    {
      ChainClimbs(m.recommended, conclusions, items, i);
    }
    assert all[n + |items| - 1] == Release(top, Tested);
    forall i, j | 0 <= i < |all| && 0 <= j < |all| && i != j
      ensures OtherVersion(all[i], all[j]) && Apart(all[i], all[j])
    {
      if i < n && j < n {
        assert Apart(m.releases[i], m.releases[j]);
      } else if i < n {
        assert m.releases[i].version != items[j - n].version;
        assert m.releases[i] in m.releases;
      } else if j < n {
        assert m.releases[j].version != items[i - n].version;
        assert m.releases[j] in m.releases;
      }
    }
    forall r | r in all && r.status.Tested? ensures !Less(NumberOf(top), NumberOf(r.version)) {
      if r !in m.releases {
        var k :| 0 <= k < |added| && added[k] == r;
      }
    }
  }

  lemma SortIsSound(releases: seq<Release>, top: Text)
    requires Sound(releases, top)
    ensures Sound(Sort(releases, KeyOfRelease), top)
  {
    hide Sort, Less, Pairwise, Apart;
    var s := Sort(releases, KeyOfRelease);
    SortPairwise(releases, KeyOfRelease, OtherVersion);
    SortPairwise(releases, KeyOfRelease, Apart);
    forall r ensures r in s <==> r in releases { SameElements(releases, KeyOfRelease, r); }
    forall i | 0 <= i < |s| ensures s[i].version.Written? {
      assert s[i] in releases;
    }
  }

  lemma SoundIsHealthy(m: Manifest)
    requires Sound(m.releases, m.recommended) && Ascending(m.releases, KeyOfRelease)
    requires m.floor == m.recommended && RollingRuntimeSupport(NumberOf(m.recommended)) == Some(m.policy)
    ensures Healthy(m)
  {
    hide Sort, Ascending;
    var top, tested := m.recommended, TestedIn(m.releases, m.policy.supported);
    TestedInExact(m.releases, m.policy.supported, top);
    forall t | t in tested ensures t.Written? && (t != top ==> Less(NumberOf(t), NumberOf(top))) {
      TestedInExact(m.releases, m.policy.supported, t);
      var i :| 0 <= i < |m.releases| && m.releases[i] == Release(t, Tested);
      var j :| 0 <= j < |m.releases| && m.releases[j] == Release(top, Tested);
      assert t != top ==> Apart(m.releases[i], m.releases[j]);
    }
    LastIsGreatest(tested, top);
  }

  /** Sorting a tested inventory that has its own maximum puts that maximum last. */
  lemma LastIsGreatest(tested: seq<Text>, top: Text)
    requires top in tested && forall t | t in tested :: t.Written? && (t != top ==> Less(NumberOf(t), NumberOf(top)))
    ensures var s := Sort(tested, KeyOfText);
            |s| > 0 && s[|s| - 1] == top
  {
    var s := Sort(tested, KeyOfText);
    SortSorts(tested, KeyOfText);
    SameElements(tested, KeyOfText, top);
    var k :| 0 <= k < |s| && s[k] == top;
    SameElements(tested, KeyOfText, s[|s| - 1]);
  }

  lemma {:induction false} TestedInExact(releases: seq<Release>, lines: seq<Line>, t: Text)
    ensures t in TestedIn(releases, lines) <==>
            Release(t, Tested) in releases && LineOf(NumberOf(t)) in lines
  {
    if releases != [] {
      var n := |releases| - 1;
      TestedInExact(releases[..n], lines, t);
      assert releases == releases[..n] + [releases[n]];
    }
  }

  /** The chain leads strictly upwards from the recommendation. */
  lemma {:induction false} ChainClimbs(current: Text, conclusions: Conclusions, items: seq<Evidence>, i: nat)
    requires i < |items| && forall k | 0 <= k < |items| :: Admissible(current, conclusions, items, k)
    ensures Less(NumberOf(current), NumberOf(items[i].version))
    ensures forall k | 0 <= k < i :: Less(NumberOf(items[k].version), NumberOf(items[i].version))
  {
    hide ReleaseTransition;
    assert Admissible(current, conclusions, items, i);
    TransitionAscends(NumberOf(Previous(current, items, i)), NumberOf(items[i].version));
    if i > 0 {
      ChainClimbs(current, conclusions, items, i - 1);
    }
  }

  /** All supported versions lie above all deprecated ones. */
  lemma SupportedAboveDeprecated(m: Manifest, s: Text, d: Text)
    requires ValidManifest(m) && s in Supported(m) && d in Deprecated(m)
    ensures Less(NumberOf(d), NumberOf(s))
  {
    SameElements(TestedIn(m.releases, m.policy.supported), KeyOfText, s);
    SameElements(TestedIn(m.releases, DeprecatedOnly(m.policy)), KeyOfText, d);
    TestedInExact(m.releases, m.policy.supported, s);
    TestedInExact(m.releases, DeprecatedOnly(m.policy), d);
    WithoutExact(m.policy.deprecated, m.policy.supported, LineOf(NumberOf(d)));
  }

  datatype Step = Step(chain: seq<Evidence>, conclusions: Conclusions)

  /** The manifest after a whole history of promotions, or None if one was refused. */
  function After(m: Manifest, steps: seq<Step>): Option<Manifest>
    decreases |steps|
  {
    if steps == [] then Some(m)
    else if Promotable(m, steps[0].chain, steps[0].conclusions)
    then After(Promoted(m, steps[0].chain), steps[1..])
    else None
  }

  /** Over every history the invariant holds, no release is lost and the recommendation climbs. */
  lemma {:induction false} HistoriesStayHealthy(m: Manifest, steps: seq<Step>, r: Release)
    requires Healthy(m) && After(m, steps).Some?
    ensures Healthy(After(m, steps).value)
    ensures r in m.releases ==> r in After(m, steps).value.releases
    ensures steps != [] ==> Less(NumberOf(m.recommended), NumberOf(After(m, steps).value.recommended))
    decreases |steps|
  {
    hide ValidManifest, TestedUpTo, Ascending, Sort, Admissible;
    if steps != [] {
      var chain := steps[0].chain;
      PromotionKeepsHealth(m, chain, steps[0].conclusions);
      PromotionAdds(m, chain, r);
      HistoriesStayHealthy(Promoted(m, chain), steps[1..], r);
    }
  }

  lemma PromotionAdds(m: Manifest, items: seq<Evidence>, r: Release)
    requires |items| > 0 && RollingRuntimeSupport(NumberOf(items[|items| - 1].version)).Some?
    ensures r in Promoted(m, items).releases <==> r in m.releases || r in NewReleases(items)
  {
    SameElements(m.releases + NewReleases(items), KeyOfRelease, r);
  }

  function Plain(major: nat, minor: nat, patch: nat): Text { Written(false, Semver(major, minor, patch)) }

  const FIRST := Release(Plain(1, 5, 0), Tested)
  const AHEAD := Release(Plain(1, 6, 5), Tested)
  const LAGGING := Manifest(FIRST.version, FIRST.version, [FIRST, AHEAD],
                            Policy([Line(1, 4), Line(1, 5)], [Line(1, 3)], Semver(1, 3, 0), true))
  const NEXT := Evidence(Plain(1, 6, 0), 3, FIRST.version, FIRST.version, true, HumanReviewRequired, true)
  const KEPT: Conclusions := map[Plain(1, 6, 0) := "kept"]

  /** Validation alone is not inductive: a tested release above the recommendation, on a line
      outside the window, passes it and leaves a later promotion invalid. */
  lemma ValidationAloneIsNotKept()
    ensures ValidManifest(LAGGING) && Promotable(LAGGING, [NEXT], KEPT) && !ValidManifest(Promoted(LAGGING, [NEXT]))
  {
    hide Sort;
    LaggingIsValid();
    assert VersionsOf([NEXT])[0] == NEXT.version;
    assert "kept"[0] == 'k';
    var n := Promoted(LAGGING, [NEXT]);
    assert LAGGING.releases[1] == AHEAD;
    PromotionAdds(LAGGING, [NEXT], AHEAD);
    SupportedHolds(n, AHEAD.version);
    AheadBreaks(n, AHEAD.version);
  }

  lemma LaggingIsValid()
    ensures ValidManifest(LAGGING)
  {
    assert [FIRST, AHEAD][..1] == [FIRST] && [FIRST][..0] == [];
    assert TestedIn([FIRST], LAGGING.policy.supported) == [FIRST.version];
    assert TestedIn([FIRST, AHEAD], LAGGING.policy.supported) == [FIRST.version];
    var one := [FIRST.version];
    assert Sort(one[1..], KeyOfText) == [];
    assert Sort(one, KeyOfText) == one;
    assert Supported(LAGGING) == [FIRST.version];
    assert LAGGING.releases[0] == FIRST;
  }

  /** A supported version above the recommendation is never valid. */
  lemma AheadBreaks(m: Manifest, t: Text)
    requires t in Supported(m) && Less(NumberOf(m.recommended), NumberOf(t))
    ensures !ValidManifest(m)
  {
    hide WrittenReleases, DistinctVersions, RollingRuntimeSupport, TestedIn, Sort;
    SortSorts(TestedIn(m.releases, m.policy.supported), KeyOfText);
    var s := Supported(m);
    var k :| 0 <= k < |s| && s[k] == t;
    assert k < |s| - 1 ==> !Less(KeyOfText(s[|s| - 1]), KeyOfText(s[k]));
  }

  // When validity alone is kept.

  function NewTop(items: seq<Evidence>): Text
    requires items != []
  {
    items[|items| - 1].version
  }

  /** No release tested before stands on a supported line of the new window above the new
      recommendation. */
  predicate NoneAhead(m: Manifest, items: seq<Evidence>)
    requires items != [] && RollingRuntimeSupport(NumberOf(NewTop(items))).Some?
  {
    forall r | r in m.releases && r.status.Tested?
               && LineOf(NumberOf(r.version)) in RollingRuntimeSupport(NumberOf(NewTop(items))).value.supported ::
      !Less(NumberOf(NewTop(items)), NumberOf(r.version))
  }

  /** A promotion keeps a manifest valid exactly when nothing tested is ahead in the new window. */
  lemma ValidityKeptExactly(m: Manifest, items: seq<Evidence>, conclusions: Conclusions)
    requires Promotable(m, items, conclusions)
    ensures ValidManifest(Promoted(m, items)) <==> NoneAhead(m, items)
  {
    hide Sort, Supported, Admissible, PlainText, ValidManifest, Pairwise, RollingRuntimeSupport, Promoted;
    if NoneAhead(m, items) {
      NoneAheadIsValid(m, items, conclusions);
    } else {
      var r :| r in m.releases && r.status.Tested?
               && LineOf(NumberOf(r.version)) in RollingRuntimeSupport(NumberOf(NewTop(items))).value.supported
               && Less(NumberOf(NewTop(items)), NumberOf(r.version));
      PromotionAdds(m, items, r);
      SupportedHolds(Promoted(m, items), r.version);
      PromotedHead(m, items);
      assert r == Release(r.version, Tested);
      AheadBreaks(Promoted(m, items), r.version);
    }
  }

  lemma PromotedHead(m: Manifest, items: seq<Evidence>)
    requires items != [] && RollingRuntimeSupport(NumberOf(NewTop(items))).Some?
    ensures var n := Promoted(m, items);
            && n.recommended == n.floor == NewTop(items)
            && RollingRuntimeSupport(NumberOf(n.recommended)) == Some(n.policy)
            && n.releases == Sort(m.releases + NewReleases(items), KeyOfRelease)
  {
  }

  lemma NoneAheadIsValid(m: Manifest, items: seq<Evidence>, conclusions: Conclusions)
    requires Promotable(m, items, conclusions) && NoneAhead(m, items)
    ensures ValidManifest(Promoted(m, items))
  {
    hide Sort, Supported, Admissible, PlainText, Pairwise, RollingRuntimeSupport, Promoted, NoneAhead;
    var n, all := Promoted(m, items), m.releases + NewReleases(items);
    PromotedHead(m, items);
    JoinIsDistinct(m, items, conclusions);
    SortPairwise(all, KeyOfRelease, OtherVersion);
    PairwiseDistinct(n.releases);
    SortSorts(all, KeyOfRelease);
    forall i | 0 <= i < |n.releases| ensures n.releases[i].version.Written? {
      SameElements(all, KeyOfRelease, n.releases[i]);
    }
    assert all[|all| - 1] == Release(NewTop(items), Tested);
    SameElements(all, KeyOfRelease, Release(NewTop(items), Tested));
    NewTopIsLast(m, items, conclusions);
  }

  lemma PairwiseDistinct(releases: seq<Release>)
    requires Pairwise(releases, OtherVersion)
    ensures DistinctVersions(releases)
  {
    forall i, j | 0 <= i < j < |releases| ensures releases[i].version != releases[j].version {
      assert OtherVersion(releases[i], releases[j]);
    }
  }

  lemma JoinIsDistinct(m: Manifest, items: seq<Evidence>, conclusions: Conclusions)
    requires Promotable(m, items, conclusions)
    ensures Pairwise(m.releases + NewReleases(items), OtherVersion)
    ensures WrittenReleases(m.releases + NewReleases(items))
  {
    hide Sort, Supported, RollingRuntimeSupport, ReleaseTransition, PlainText;
    var n, all := |m.releases|, m.releases + NewReleases(items);
    forall i, j | 0 <= i < |all| && 0 <= j < |all| && i != j ensures all[i].version != all[j].version {
      if i < n && j < n {
        assert m.releases[i].version != m.releases[j].version;
      } else if i < n {
        assert m.releases[i].version != items[j - n].version;
      } else if j < n {
        assert m.releases[j].version != items[i - n].version;
      } else if i < j {
        assert Admissible(m.recommended, conclusions, items, j - n);
      } else {
        assert Admissible(m.recommended, conclusions, items, i - n);
      }
    }
  }

  lemma {:induction false} TestedInJoin(a: seq<Release>, b: seq<Release>, lines: seq<Line>)
    ensures TestedIn(a + b, lines) == TestedIn(a, lines) + TestedIn(b, lines)
    decreases |b|
  {
    hide TestedIn, LastTested;
    TestedInStep(b, lines);
    if b == [] {
      assert a + b == a;
    } else {
      var n := |b| - 1;
      TestedInJoin(a, b[..n], lines);
      TestedInStep(a + b, lines);
      assert (a + b)[..|a| + n] == a + b[..n];
    }
  }

  lemma TestedInStep(a: seq<Release>, lines: seq<Line>)
    ensures a == [] ==> TestedIn(a, lines) == []
    ensures a != [] ==> TestedIn(a, lines) ==
                        TestedIn(a[..|a| - 1], lines) + LastTested(a[|a| - 1], lines)
  {
  }

  function LastTested(last: Release, lines: seq<Line>): seq<Text> {
    if last.status.Tested? && LineOf(NumberOf(last.version)) in lines then [last.version] else []
  }

  lemma OnlyTested(r: Release, lines: seq<Line>)
    requires r.status.Tested? && LineOf(NumberOf(r.version)) in lines
    ensures TestedIn([r], lines) == [r.version]
  {
    assert [r][..0] == [];
    assert TestedIn([], lines) == [];
  }

  /** Sorting is stable, so the last promoted release sorts behind its equals, and nothing that
      counts is behind it. */
  lemma NewTopIsLast(m: Manifest, items: seq<Evidence>, conclusions: Conclusions)
    requires Promotable(m, items, conclusions) && NoneAhead(m, items)
    ensures var s := Supported(Promoted(m, items));
            s != [] && s[|s| - 1] == NewTop(items)
  {
    hide Sort, Admissible, PlainText, ValidManifest, RollingRuntimeSupport;
    var top, all, n := NewTop(items), m.releases + NewReleases(items), Promoted(m, items);
    PromotedHead(m, items);
    var last, lines := Release(top, Tested), n.policy.supported;
    assert all[|all| - 1] == last;
    var before, after := SortSplits(all, KeyOfRelease);
    TopLineSupported(NumberOf(top), n.policy);
    TestedInJoin(before + [last], after, lines);
    TestedInJoin(before, [last], lines);
    OnlyTested(last, lines);
    forall t ensures t !in TestedIn(after, lines) {
      TestedInExact(after, lines, t);
      if Release(t, Tested) in after { BehindIsOutside(m, items, conclusions, t); }
    }
    var tested := TestedIn(n.releases, lines);
    assert TestedIn(after, lines) == [] by { NoElements(TestedIn(after, lines)); }
    assert tested == TestedIn(before, lines) + [top];
    var low, high := SortSplits(tested, KeyOfText);
    forall t ensures t in Sort(tested, KeyOfText) ==> !Less(NumberOf(top), NumberOf(t)) {
      SameElements(tested, KeyOfText, t);
      TestedInExact(before, lines, t);
    }
    assert forall t :: t in high ==> t in Sort(tested, KeyOfText);
    NoElements(high);
  }

  lemma TopLineSupported(v: Semver, policy: Policy)
    requires RollingRuntimeSupport(v) == Some(policy)
    ensures LineOf(v) in policy.supported
  {
    assert policy.supported[1] == LineOf(v);
  }

  /** A tested release above the new recommendation is an old one, and outside the window. */
  lemma BehindIsOutside(m: Manifest, items: seq<Evidence>, conclusions: Conclusions, t: Text)
    requires Promotable(m, items, conclusions) && NoneAhead(m, items)
    requires Release(t, Tested) in Promoted(m, items).releases && Less(NumberOf(NewTop(items)), NumberOf(t))
    ensures LineOf(NumberOf(t)) !in Promoted(m, items).policy.supported
  {
    hide Sort, Admissible, PlainText, ValidManifest, Supported;
    var r := Release(t, Tested);
    PromotionAdds(m, items, r);
    if r in NewReleases(items) {
      var i :| 0 <= i < |items| && NewReleases(items)[i] == r;
      ChainClimbs(m.recommended, conclusions, items, |items| - 1);
    }
  }

  lemma NoElements(s: seq<Text>)
    ensures s == [] || exists t :: t in s
  {
    if s != [] { assert s[0] in s; }
  }

  lemma SupportedHolds(m: Manifest, t: Text)
    ensures t in Supported(m) <==> Release(t, Tested) in m.releases && LineOf(NumberOf(t)) in m.policy.supported
  {
    SameElements(TestedIn(m.releases, m.policy.supported), KeyOfText, t);
    TestedInExact(m.releases, m.policy.supported, t);
  }
}
