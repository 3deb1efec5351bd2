/** The release client: discover or create a draft, upload assets, publish; over a server
    whose answers, but not whose effects, may be lost. */
module ReleaseProtocol {
  import opened Json
  import opened Collections
  import opened Remote

  const MAX_RELEASE_LIST_PAGES := 5
  const RELEASES_PER_PAGE := 100
  const MAX_ASSET_BYTES := 10_485_760

  datatype Asset = Asset(id: nat, name: string, size: nat)

  datatype Release = Release(
    id: nat, tag: string, target: string, title: string, notes: string,
    draft: bool, prerelease: bool, assets: seq<Asset>)

  /** What the protected workflow asks for. */
  datatype Identity = Identity(tag: string, target: string, title: string, notes: string)

  datatype World = World(releases: seq<Release>, nextId: nat)

  predicate Digit(c: char) { '0' <= c <= '9' }

  predicate Alphanumeric(c: char) { Digit(c) || 'a' <= c <= 'z' || 'A' <= c <= 'Z' }

  /** One alphanumeric, then up to 254 alphanumerics, underscores, dots and hyphens. */
  predicate SafeName(name: string) {
    && 1 <= |name| <= 255 && Alphanumeric(name[0])
    && forall k | 0 <= k < |name| :: Alphanumeric(name[k]) || name[k] in "_.-"
  }

  /** `v`, then two or more groups of digits with single dots between. */
  predicate TagForm(tag: string) {
    && |tag| > 0 && tag[0] == 'v' && '.' in tag
    && forall k | 1 <= k < |tag| ::
         Digit(tag[k]) || (tag[k] == '.' && Digit(tag[k - 1]) && k + 1 < |tag|)
  }

  predicate CommitForm(target: string) {
    |target| == 40 && forall k | 0 <= k < 40 :: Digit(target[k]) || 'a' <= target[k] <= 'f'
  }

  predicate WellFormed(i: Identity) {
    TagForm(i.tag) && CommitForm(i.target) && i.title == i.tag
  }

  function Names(assets: seq<Asset>): (r: seq<string>)
    ensures |r| == |assets| && forall k | 0 <= k < |assets| :: r[k] == assets[k].name
  {
    seq(|assets|, k requires 0 <= k < |assets| => assets[k].name)
  }

  predicate Matching(r: Release, i: Identity, requireDraft: Option<bool>) {
    && r.id > 0 && r.tag == i.tag && r.target == i.target && r.title == i.title && r.notes == i.notes && !r.prerelease
    && (requireDraft.Some? ==> r.draft == requireDraft.value)
    && (forall k | 0 <= k < |r.assets| :: r.assets[k].id > 0 && SafeName(r.assets[k].name))
    && Distinct(Names(r.assets))
  }

  function ValidateRelease(r: Release, i: Identity, requireDraft: Option<bool>): Result<Release> {
    if WellFormed(i) && Matching(r, i, requireDraft) then Ok(r) else Err
  }

  // What the server answers.

  /** The published release of a tag; drafts are not found by tag. */
  function ByTag(releases: seq<Release>, tag: string): Option<Release> {
    if releases == [] then None
    else if releases[0].tag == tag && !releases[0].draft then Some(releases[0])
    else ByTag(releases[1..], tag)
  }

  /** The place of the release with this id. */
  function IndexOf(releases: seq<Release>, id: nat): (r: Option<nat>)
    ensures r.Some? ==> r.value < |releases| && releases[r.value].id == id
                        && forall k | 0 <= k < r.value :: releases[k].id != id
    ensures r.None? ==> forall k | 0 <= k < |releases| :: releases[k].id != id
  {
    if releases == [] then None
    else if releases[0].id == id then Some(0)
    else
      var rest := IndexOf(releases[1..], id);
      if rest.None? then None
      else
        assert forall k | 0 < k <= rest.value :: releases[k] == releases[1..][k - 1];
        Some(rest.value + 1)
  }

  function Tagged(releases: seq<Release>, tag: string): seq<Release> {
    if releases == [] then []
    else
      var last := releases[|releases| - 1];
      Tagged(releases[..|releases| - 1], tag) + (if last.tag == tag then [last] else [])
  }

  // What each operation does, as a function of the world before it.

  function Created(w: World, i: Identity): Release {
    Release(w.nextId, i.tag, i.target, i.title, i.notes, true, false, [])
  }

  function AfterEnsure(w: World, i: Identity, weather: Weather): (World, Result<Release>) {
    if !WellFormed(i) || weather.ReadFails? then (w, Err)
    else if ByTag(w.releases, i.tag).Some? then (w, ValidateRelease(ByTag(w.releases, i.tag).value, i, None))
    else if |w.releases| > MAX_RELEASE_LIST_PAGES * RELEASES_PER_PAGE then (w, Err)
    else
      var matches := Tagged(w.releases, i.tag);
      if |matches| > 1 then (w, Err)
      else if |matches| == 1 then (w, ValidateRelease(matches[0], i, None))
      else if weather.WriteRefused? then (w, Err)
      else
        var created := Created(w, i);
        (World(w.releases + [created], w.nextId + 1),
         if weather.AnswerLost? then Err else ValidateRelease(created, i, Some(true)))
  }

  function Add(r: Release, asset: Asset): Release { r.(assets := r.assets + [asset]) }

  function AfterUpload(w: World, id: nat, i: Identity, name: string, size: nat,
                       weather: Weather): (World, Result<Asset>) {
    var at := IndexOf(w.releases, id);
    if weather.ReadFails? || at.None? then (w, Err)
    else
      var r := w.releases[at.value];
      if ValidateRelease(r, i, None).Err? || !r.draft || !SafeName(name) || name in Names(r.assets)
         || size == 0 || size > MAX_ASSET_BYTES || weather.WriteRefused?
      then (w, Err)
      else
        var asset := Asset(w.nextId, name, size);
        (World(w.releases[at.value := Add(r, asset)], w.nextId + 1),
         if weather.AnswerLost? || asset.id == 0 then Err else Ok(asset))
  }

  function AfterPublish(w: World, id: nat, i: Identity, expected: seq<string>,
                        weather: Weather): (World, Result<Release>) {
    var at := IndexOf(w.releases, id);
    if weather.ReadFails? || at.None? then (w, Err)
    else
      var r := w.releases[at.value];
      if ValidateRelease(r, i, None).Err? || !Distinct(expected) || !(forall n | n in expected :: SafeName(n))
         || multiset(Names(r.assets)) != multiset(expected)
      then (w, Err)
      else if !r.draft then (w, Ok(r))
      else if weather.WriteRefused? then (w, Err)
      else
        var published := r.(draft := false);
        (World(w.releases[at.value := published], w.nextId),
         if weather.AnswerLost? then Err else ValidateRelease(published, i, Some(false)))
  }

  class Server {
    var releases: seq<Release>
    var nextId: nat

    constructor ()
      ensures Now() == World([], 1)
    {
      releases, nextId := [], 1;
    }

    ghost function Now(): World reads this { World(releases, nextId) }

    method List() returns (r: Result<seq<Release>>)
      ensures r == if |releases| <= MAX_RELEASE_LIST_PAGES * RELEASES_PER_PAGE then Ok(releases) else Err
    {
      var listed := [];
      var page := 1;
      while page <= MAX_RELEASE_LIST_PAGES
        invariant 1 <= page <= MAX_RELEASE_LIST_PAGES + 1
        invariant (page - 1) * RELEASES_PER_PAGE <= |releases| && listed == releases[..(page - 1) * RELEASES_PER_PAGE]
      {
        var items := Page(releases, RELEASES_PER_PAGE, page);
        listed := listed + items;
        if |items| < RELEASES_PER_PAGE {
          assert listed == releases;
          return Ok(listed);
        }
        page := page + 1;
      }
      var overflow := Page(releases, RELEASES_PER_PAGE, MAX_RELEASE_LIST_PAGES + 1);
      assert |overflow| == Min(600, |releases|) - 500;
      if overflow != [] { return Err; }
      assert listed == releases;
      return Ok(listed);
    }

    method EnsureRelease(i: Identity, weather: Weather) returns (r: Result<Release>)
      modifies this
      ensures (Now(), r) == AfterEnsure(old(Now()), i, weather)
    {
      hide TagForm, CommitForm, Matching;
      if !WellFormed(i) || weather.ReadFails? { return Err; }
      var published := ByTag(releases, i.tag);
      if published.Some? { return ValidateRelease(published.value, i, None); }
      var listed := List();
      if listed.Err? { return Err; }
      var matches := [];
      for k := 0 to |listed.value|
        invariant matches == Tagged(listed.value[..k], i.tag)
      {
        assert listed.value[..k + 1][..k] == listed.value[..k];
        if listed.value[k].tag == i.tag { matches := matches + [listed.value[k]]; }
      }
      assert listed.value[..|listed.value|] == releases;
      if |matches| > 1 { return Err; }
      if |matches| == 1 { return ValidateRelease(matches[0], i, None); }
      if weather.WriteRefused? { return Err; }
      var created := Release(nextId, i.tag, i.target, i.title, i.notes, true, false, []);
      releases, nextId := releases + [created], nextId + 1;
      if weather.AnswerLost? { return Err; }
      return ValidateRelease(created, i, Some(true));
    }

    method ReadRelease(id: nat, i: Identity) returns (r: Result<Release>, at: nat)
      ensures r.Ok? <==> (&& IndexOf(releases, id).Some?
                          && ValidateRelease(releases[IndexOf(releases, id).value], i, None).Ok?)
      ensures r.Ok? ==> at == IndexOf(releases, id).value && r.value == releases[at]
    {
      at := 0;
      while at < |releases|
        invariant at <= |releases| && forall k | 0 <= k < at :: releases[k].id != id
      {
        if releases[at].id == id { return ValidateRelease(releases[at], i, None), at; }
        at := at + 1;
      }
      return Err, at;
    }

    method UploadAsset(id: nat, i: Identity, name: string, size: nat, weather: Weather) returns (r: Result<Asset>)
      modifies this
      ensures (Now(), r) == AfterUpload(old(Now()), id, i, name, size, weather)
    {
      hide ValidateRelease, SafeName;
      if weather.ReadFails? { return Err; }
      var release, at := ReadRelease(id, i);
      if release.Err? || !release.value.draft || !SafeName(name) { return Err; }
      if exists k :: 0 <= k < |release.value.assets| && release.value.assets[k].name == name {
        return Err;
      }
      if size == 0 || size > MAX_ASSET_BYTES || weather.WriteRefused? { return Err; }
      var asset := Asset(nextId, name, size);
      releases, nextId := releases[at := Add(release.value, asset)], nextId + 1;
      if weather.AnswerLost? || asset.id == 0 { return Err; }
      return Ok(asset);
    }

    method PublishRelease(id: nat, i: Identity, expected: seq<string>, weather: Weather) returns (r: Result<Release>)
      modifies this
      ensures (Now(), r) == AfterPublish(old(Now()), id, i, expected, weather)
    {
      hide ValidateRelease, SafeName;
      if weather.ReadFails? { return Err; }
      var release, at := ReadRelease(id, i);
      if release.Err? { return Err; }
      if !Distinct(expected) || !(forall n | n in expected :: SafeName(n)) { return Err; }
      if multiset(Names(release.value.assets)) != multiset(expected) { return Err; }
      if !release.value.draft { return release; }
      if weather.WriteRefused? { return Err; }
      var published := release.value.(draft := false);
      releases := releases[at := published];
      if weather.AnswerLost? { return Err; }
      return ValidateRelease(published, i, Some(false));
    }
  }

  // Every run.

  datatype Command =
    | Ensure(identity: Identity)
    | Upload(id: nat, identity: Identity, name: string, size: nat)
    | Publish(id: nat, identity: Identity, expected: seq<string>)

  datatype Call = Call(command: Command, weather: Weather)

  function After(w: World, c: Call): World {
    match c.command
    case Ensure(i) => AfterEnsure(w, i, c.weather).0
    case Upload(id, i, name, size) => AfterUpload(w, id, i, name, size, c.weather).0
    case Publish(id, i, expected) => AfterPublish(w, id, i, expected, c.weather).0
  }

  function AfterAll(w: World, calls: seq<Call>): World
    decreases |calls|
  {
    if calls == [] then w else AfterAll(After(w, calls[0]), calls[1..])
  }

  /** The server's own numbering, at most one release with this tag, and its asset names unique. */
  predicate Once(w: World, tag: string) {
    && w.nextId > 0
    && (forall k | 0 <= k < |w.releases| :: 0 < w.releases[k].id < w.nextId)
    && (forall k, l | 0 <= k < l < |w.releases| :: w.releases[k].id != w.releases[l].id)
    && (forall k, l | 0 <= k < l < |w.releases| && w.releases[k].tag == tag :: w.releases[l].tag != tag)
    && (forall k | 0 <= k < |w.releases| && w.releases[k].tag == tag :: Distinct(Names(w.releases[k].assets)))
  }

  /** A release may only gain assets or be published; once published it never changes. */
  predicate Follows(a: Release, b: Release) {
    && b.(draft := a.draft, assets := a.assets) == a && a.assets <= b.assets
    && (!a.draft ==> b == a)
  }

  predicate Grown(w: World, v: World) {
    && |w.releases| <= |v.releases| && w.nextId <= v.nextId
    && forall k | 0 <= k < |w.releases| :: Follows(w.releases[k], v.releases[k])
  }

  lemma CallKeeps(w: World, c: Call, tag: string)
    requires Once(w, tag)
    ensures Once(After(w, c), tag) && Grown(w, After(w, c))
  {
    hide WellFormed, SafeName, Matching, Once, Grown, IndexOf, AfterEnsure, AfterUpload, AfterPublish;
    match c.command
    case Ensure(i) => EnsureKeeps(w, i, c.weather, tag);
    case Upload(id, i, name, size) => UploadKeeps(w, id, i, name, size, c.weather, tag);
    case Publish(id, i, expected) => PublishKeeps(w, id, i, expected, c.weather, tag);
  }

  lemma PublishKeeps(w: World, id: nat, i: Identity, expected: seq<string>, weather: Weather, tag: string)
    requires Once(w, tag)
    ensures var v := AfterPublish(w, id, i, expected, weather).0;
            Once(v, tag) && Grown(w, v)
  {
    hide WellFormed, SafeName, IndexOf, Once, Grown;
    GrownReflexive(w);
    var at := IndexOf(w.releases, id);
    if at.Some? && AfterPublish(w, id, i, expected, weather).0 != w {
      ReplaceKeeps(w, at.value, w.releases[at.value].(draft := false), w.nextId, tag);
    }
  }

  lemma EnsureKeeps(w: World, i: Identity, weather: Weather, tag: string)
    requires Once(w, tag)
    ensures var v := AfterEnsure(w, i, weather).0;
            Once(v, tag) && Grown(w, v)
  {
    hide WellFormed, SafeName, Matching, ByTag, Once, Grown;
    TaggedExact(w.releases, i.tag);
    GrownReflexive(w);
    if Tagged(w.releases, i.tag) == [] {
      AppendKeeps(w, Created(w, i), tag);
    }
  }

  lemma AppendKeeps(w: World, r: Release, tag: string)
    requires Once(w, tag) && r.id == w.nextId && r.assets == []
    requires forall k | 0 <= k < |w.releases| :: w.releases[k].tag != r.tag
    ensures var v := World(w.releases + [r], w.nextId + 1);
            Once(v, tag) && Grown(w, v)
  {
    assert Names([]) == [];
  }

  lemma ReplaceKeeps(w: World, at: nat, r: Release, next: nat, tag: string)
    requires Once(w, tag) && at < |w.releases| && Follows(w.releases[at], r) && next >= w.nextId
    requires Distinct(Names(r.assets))
    ensures var v := World(w.releases[at := r], next);
            Once(v, tag) && Grown(w, v)
  {
    hide Names;
  }

  lemma UploadKeeps(w: World, id: nat, i: Identity, name: string, size: nat, weather: Weather, tag: string)
    requires Once(w, tag)
    ensures var v := AfterUpload(w, id, i, name, size, weather).0;
            Once(v, tag) && Grown(w, v)
  {
    hide WellFormed, SafeName, IndexOf, Once, Grown;
    GrownReflexive(w);
    var at := IndexOf(w.releases, id);
    if at.Some? && AfterUpload(w, id, i, name, size, weather).0 != w {
      var r := w.releases[at.value];
      var asset := Asset(w.nextId, name, size);
      assert Names(Add(r, asset).assets) == Names(r.assets) + [name];
      ReplaceKeeps(w, at.value, Add(r, asset), w.nextId + 1, tag);
    }
  }

  /** The listing finds nothing exactly when no release carries the tag. */
  lemma {:induction false} TaggedExact(releases: seq<Release>, tag: string)
    ensures Tagged(releases, tag) == [] <==> forall k | 0 <= k < |releases| :: releases[k].tag != tag
    ensures forall r | r in Tagged(releases, tag) :: r in releases && r.tag == tag
  {
    if releases != [] {
      TaggedExact(releases[..|releases| - 1], tag);
      assert forall k | 0 <= k < |releases| - 1 :: releases[..|releases| - 1][k] == releases[k];
    }
  }

  lemma GrownTransitive(a: World, b: World, c: World)
    requires Grown(a, b) && Grown(b, c)
    ensures Grown(a, c)
  {
    forall k | 0 <= k < |a.releases| ensures Follows(a.releases[k], c.releases[k]) {
      assert Follows(a.releases[k], b.releases[k]) && Follows(b.releases[k], c.releases[k]);
    }
  }

  /** Over every run: one release per tag, unique asset names, no identity ever changes, and
      nothing is added to a published release. */
  lemma {:induction false} RunsKeep(w: World, calls: seq<Call>, tag: string)
    requires Once(w, tag)
    ensures Once(AfterAll(w, calls), tag) && Grown(w, AfterAll(w, calls))
    decreases |calls|
  {
    hide Once, Follows, After;
    if calls == [] {
      GrownReflexive(w);
    } else {
      CallKeeps(w, calls[0], tag);
      RunsKeep(After(w, calls[0]), calls[1..], tag);
      GrownTransitive(w, After(w, calls[0]), AfterAll(w, calls));
    }
  }

  lemma GrownReflexive(w: World)
    ensures Grown(w, w)
  {
  }

  // What a publication and a creation are good for later.

  /** A successful publication leaves the release published with exactly the expected assets. */
  lemma PublicationIsComplete(w: World, id: nat, i: Identity, expected: seq<string>, weather: Weather)
    requires AfterPublish(w, id, i, expected, weather).1.Ok?
    ensures var (v, r) := AfterPublish(w, id, i, expected, weather);
            && !r.value.draft && r.value.id == id && multiset(Names(r.value.assets)) == multiset(expected)
            && IndexOf(v.releases, id).Some? && v.releases[IndexOf(v.releases, id).value] == r.value
            && Matching(r.value, i, Some(false)) && WellFormed(i)
  {
    hide WellFormed, SafeName;
    var (v, r) := AfterPublish(w, id, i, expected, weather);
    SameIndex(w.releases, v.releases, id);
  }

  /** A by-id lookup depends on the ids alone. */
  lemma {:induction false} SameIndex(a: seq<Release>, b: seq<Release>, id: nat)
    requires |a| <= |b| && forall k | 0 <= k < |a| :: a[k].id == b[k].id
    ensures IndexOf(a, id).Some? ==> IndexOf(b, id) == IndexOf(a, id)
  {
    if a != [] && a[0].id != id {
      SameIndex(a[1..], b[1..], id);
    }
  }

  /** After any later run the published release is the same record, and publishing it again
      with the same expectation returns it and changes nothing. */
  lemma PublicationIsFinal(w: World, id: nat, i: Identity, expected: seq<string>, weather: Weather, calls: seq<Call>)
    requires Once(w, i.tag) && AfterPublish(w, id, i, expected, weather).1.Ok?
    ensures var (v, r) := AfterPublish(w, id, i, expected, weather);
            var later := AfterAll(v, calls);
            && IndexOf(v.releases, id).Some? && IndexOf(later.releases, id) == IndexOf(v.releases, id)
            && later.releases[IndexOf(v.releases, id).value] == r.value
            && AfterPublish(later, id, i, expected, Clear) == (later, r)
  {
    hide WellFormed, SafeName, Once, AfterAll, Matching;
    var (v, r) := AfterPublish(w, id, i, expected, weather);
    PublicationIsComplete(w, id, i, expected, weather);
    PublishKeeps(w, id, i, expected, weather, i.tag);
    RunsKeep(v, calls, i.tag);
    var at, later := IndexOf(v.releases, id).value, AfterAll(v, calls);
    assert Follows(v.releases[at], later.releases[at]);
    SameIndex(v.releases, later.releases, id);
    PublishAgain(later, id, i, expected, r.value, at);
  }

  lemma PublishAgain(w: World, id: nat, i: Identity, expected: seq<string>, r: Release, at: nat)
    requires IndexOf(w.releases, id) == Some(at) && w.releases[at] == r && !r.draft
    requires WellFormed(i) && Matching(r, i, Some(false)) && multiset(Names(r.assets)) == multiset(expected)
    requires Distinct(expected) && forall n | n in expected :: SafeName(n)
    ensures AfterPublish(w, id, i, expected, Clear) == (w, Ok(r))
  {
    hide WellFormed, SafeName;
  }

  /** Whatever one `ensure` returned for a tag, no later one returns another release for it. */
  lemma EnsureIsStable(w: World, i: Identity, weather: Weather, calls: seq<Call>, j: Identity, again: Weather)
    requires Once(w, i.tag) && AfterEnsure(w, i, weather).1.Ok? && j.tag == i.tag
    requires AfterEnsure(AfterAll(AfterEnsure(w, i, weather).0, calls), j, again).1.Ok?
    ensures AfterEnsure(AfterAll(AfterEnsure(w, i, weather).0, calls), j, again).1.value.id
            == AfterEnsure(w, i, weather).1.value.id
  {
    hide Once, AfterAll, WellFormed, SafeName, AfterEnsure, Follows;
    var (v, r) := AfterEnsure(w, i, weather);
    EnsureKeeps(w, i, weather, i.tag);
    EnsureReturns(w, i, weather);
    RunsKeep(v, calls, i.tag);
    var later := AfterAll(v, calls);
    EnsureReturns(later, j, again);
    EnsureKeeps(later, j, again, i.tag);
    var last := AfterEnsure(later, j, again).0;
    GrownTransitive(v, later, last);
    SoleHolder(v, last, r.value, AfterEnsure(later, j, again).1.value, i.tag);
  }

  lemma SoleHolder(v: World, last: World, a: Release, b: Release, tag: string)
    requires Once(last, tag) && Grown(v, last) && a in v.releases && b in last.releases && a.tag == b.tag == tag
    ensures b.id == a.id
  {
    var k :| 0 <= k < |v.releases| && v.releases[k] == a;
    var l :| 0 <= l < |last.releases| && last.releases[l] == b;
    assert Follows(v.releases[k], last.releases[k]);
  }

  /** What `ensure` returns is on the server, with the identity asked for. */
  lemma EnsureReturns(w: World, i: Identity, weather: Weather)
    requires AfterEnsure(w, i, weather).1.Ok?
    ensures var (v, r) := AfterEnsure(w, i, weather);
            r.value in v.releases && r.value.tag == i.tag && Matching(r.value, i, None)
  {
    hide WellFormed, SafeName;
    TaggedExact(w.releases, i.tag);
    ByTagIsListed(w.releases, i.tag);
    assert w.releases + [Created(w, i)] != [] && Created(w, i) in w.releases + [Created(w, i)];
  }

  lemma {:induction false} ByTagIsListed(releases: seq<Release>, tag: string)
    ensures ByTag(releases, tag).Some? ==>
              var r := ByTag(releases, tag).value;
              r in releases && r.tag == tag && !r.draft
    ensures ByTag(releases, tag).None? ==> forall k | 0 <= k < |releases| && releases[k].tag == tag :: releases[k].draft
  {
    if releases != [] {
      ByTagIsListed(releases[1..], tag);
      assert forall k | 0 < k < |releases| :: releases[1..][k - 1] == releases[k];
    }
  }

  /** A draft whose creation was not answered is found by the next `ensure`, exactly when the
      listing still fits its five pages. */
  lemma LostCreationIsFound(w: World, i: Identity)
    requires Once(w, i.tag) && AfterEnsure(w, i, AnswerLost).0 != w
    ensures var v := AfterEnsure(w, i, AnswerLost).0;
            && (|v.releases| <= 500 ==> AfterEnsure(v, i, Clear) == (v, Ok(Created(w, i))))
            && (|v.releases| > 500 ==> AfterEnsure(v, i, Clear) == (v, Err))
  {
    hide WellFormed, SafeName, Tagged;
    TaggedExact(w.releases, i.tag);
    var created := Created(w, i);
    var v := AfterEnsure(w, i, AnswerLost).0;
    assert v.releases == w.releases + [created];
    ByTagIsListed(v.releases, i.tag);
    assert forall k | 0 <= k < |w.releases| :: v.releases[k] == w.releases[k];
    TaggedLast(w.releases, created);
    assert Names([]) == [];
    assert Matching(created, i, None);
  }

  /** 500 other releases, and a release to be made. */
  const FULL_LISTING: seq<Release> :=
    seq(500, i requires 0 <= i < 500 => Release(i + 1, "v0.1", "", "v0.1", "", false, false, []))
  const FULL_WORLD := World(FULL_LISTING, 501)
  const ZEROS: string := Repeat('0', 40)
  const NEXT_RELEASE := Identity("v0.2", ZEROS, "v0.2", "")

  /** The 501st release is created as a draft, its answer is lost, and no `ensure` finds it again. */
  lemma DraftBeyondTheListingIsLost()
    ensures Once(FULL_WORLD, NEXT_RELEASE.tag) && AfterEnsure(FULL_WORLD, NEXT_RELEASE, AnswerLost).0 != FULL_WORLD
    ensures var v := AfterEnsure(FULL_WORLD, NEXT_RELEASE, AnswerLost).0;
            Created(FULL_WORLD, NEXT_RELEASE) in v.releases && AfterEnsure(v, NEXT_RELEASE, Clear) == (v, Err)
  {
    hide Tagged, ByTag, SafeName, Matching;
    var tag := "v0.2";
    assert tag[0] == 'v' && tag[1] == '0' && tag[2] == '.' && tag[3] == '2';
    assert forall k | 0 <= k < 500 :: FULL_LISTING[k].tag == "v0.1" && "v0.1"[3] == '1';
    assert tag != "v0.1" by { assert "v0.1"[3] == '1'; }
    TaggedExact(FULL_LISTING, tag);
    ByTagIsListed(FULL_LISTING, tag);
    var created := Created(FULL_WORLD, NEXT_RELEASE);
    assert (FULL_LISTING + [created])[500] == created;
    LostCreationIsFound(FULL_WORLD, NEXT_RELEASE);
  }

  lemma TaggedLast(releases: seq<Release>, r: Release)
    ensures Tagged(releases + [r], r.tag) == Tagged(releases, r.tag) + [r]
  {
    assert (releases + [r])[..|releases|] == releases;
  }
}
