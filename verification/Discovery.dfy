/** Discovery of unseen upstream releases, page by page down to the monitoring floor. */
module Discovery {
  import opened Json
  import opened Remote
  import opened Collections
  import opened Versions

  const MAX_RELEASE_PAGES := 4
  const MAX_RELEASES_PER_PAGE := 50

  datatype Upstream = Upstream(tag: Text, draft: bool, prerelease: bool)

  predicate Stable(u: Upstream) { !u.draft && !u.prerelease && u.tag.Written? }

  function KeyOfUpstream(u: Upstream): Semver { NumberOf(Bare(u.tag)) }

  /** What the run asks for. */
  datatype Ask = Ask(floor: Semver, known: set<Text>, ceiling: Option<Text>)

  predicate AtFloor(a: Ask, u: Upstream) { Stable(u) && !Less(a.floor, u.tag.number) }

  /** Above the floor, not yet in the manifest, and not above the ceiling. */
  predicate Wanted(a: Ask, u: Upstream) {
    && Stable(u) && Less(a.floor, u.tag.number) && Bare(u.tag) !in a.known
    && (a.ceiling.Some? ==> !Less(NumberOf(a.ceiling.value), u.tag.number))
  }

  function Unseen(a: Ask, listing: seq<Upstream>): seq<Upstream> {
    if listing == [] then []
    else
      var last := listing[|listing| - 1];
      Unseen(a, listing[..|listing| - 1]) + (if Wanted(a, last) then [last] else [])
  }

  predicate HasFloor(a: Ask, listing: seq<Upstream>) { exists u :: u in listing && AtFloor(a, u) }

  /** How many releases are looked at: whole pages, up to the first page that reaches the floor
      or is not full. */
  function Reach(a: Ask, listing: seq<Upstream>, page: nat): nat
    requires page > 0
    decreases MAX_RELEASE_PAGES + 1 - page
  {
    if page > MAX_RELEASE_PAGES then Scanned(listing, MAX_RELEASES_PER_PAGE, MAX_RELEASE_PAGES)
    else
      var items := Page(listing, MAX_RELEASES_PER_PAGE, page);
      if |items| < MAX_RELEASES_PER_PAGE || HasFloor(a, items) then Scanned(listing, MAX_RELEASES_PER_PAGE, page)
      else Reach(a, listing, page + 1)
  }

  predicate ValidAsk(a: Ask) {
    a.ceiling.Some? ==> a.ceiling.value.Written? && Less(a.floor, NumberOf(a.ceiling.value))
  }

  predicate FindsCeiling(a: Ask, unseen: seq<Upstream>) {
    a.ceiling.Some? ==> exists u :: u in unseen && Bare(u.tag) == Bare(a.ceiling.value)
  }

  /** The floor was reached, or the listing ended inside the pages. */
  predicate Exhausted(a: Ask, listing: seq<Upstream>)
  {
    HasFloor(a, listing[..Min(Reach(a, listing, 1), |listing|)])
      || |listing| < MAX_RELEASE_PAGES * MAX_RELEASES_PER_PAGE
  }

  method DiscoverUnseen(a: Ask, listing: seq<Upstream>) returns (r: Result<seq<Upstream>>)
    ensures Reach(a, listing, 1) <= |listing|
    ensures var unseen := Unseen(a, listing[..Reach(a, listing, 1)]);
            && (r.Ok? <==> ValidAsk(a) && Exhausted(a, listing) && FindsCeiling(a, unseen))
            && (r.Ok? ==> r.value == Sort(unseen, KeyOfUpstream))
  {
    hide Sort, Unseen, Reach, HasFloor;
    ReachBounded(a, listing, 1);
    if !ValidAsk(a) { return Err; }
    var unseen, exhausted := ReadPages(a, listing);
    if !exhausted { return Err; }
    if a.ceiling.Some? && !(exists u :: u in unseen && Bare(u.tag) == Bare(a.ceiling.value)) { return Err; }
    return Ok(Sort(unseen, KeyOfUpstream));
  }

  method ReadPages(a: Ask, listing: seq<Upstream>) returns (unseen: seq<Upstream>, exhausted: bool)
    ensures Reach(a, listing, 1) <= |listing|
    ensures unseen == Unseen(a, listing[..Reach(a, listing, 1)]) && (exhausted <==> Exhausted(a, listing))
  {
    hide Unseen, HasFloor, Reach;
    ReachBounded(a, listing, 1);
    var reached, page, seen, full := false, 1, 0, false;
    unseen := [];
    Nothing(a);
    while page <= MAX_RELEASE_PAGES
      invariant 1 <= page <= MAX_RELEASE_PAGES + 1 && seen == (page - 1) * MAX_RELEASES_PER_PAGE <= |listing|
      invariant unseen == Unseen(a, listing[..seen]) && !reached && !HasFloor(a, listing[..seen])
      invariant Reach(a, listing, 1) == Reach(a, listing, page)
      invariant page > 1 ==> full
      decreases MAX_RELEASE_PAGES + 1 - page
    {
      var items := Page(listing, MAX_RELEASES_PER_PAGE, page);
      ReachAt(a, listing, page);
      assert listing[..Scanned(listing, MAX_RELEASES_PER_PAGE, page)] == listing[..seen] + items;
      if items == [] {
        Nothing(a);
        assert listing[..seen] == listing;
        return unseen, true;
      }
      UnseenJoin(a, listing[..seen], items);
      unseen, reached := ReadPage(a, items, unseen);
      seen, full := seen + |items|, |items| == MAX_RELEASES_PER_PAGE;
      assert seen == Scanned(listing, MAX_RELEASES_PER_PAGE, page);
      if reached || !full { return unseen, reached || !full; }
      page := page + 1;
    }
    ReachAt(a, listing, page);
    exhausted := false;
  }

  lemma Nothing(a: Ask)
    ensures Unseen(a, []) == [] && !HasFloor(a, [])
  {
  }

  lemma ReachAt(a: Ask, listing: seq<Upstream>, page: nat)
    requires page > 0
    ensures Reach(a, listing, page) ==
            if page > MAX_RELEASE_PAGES then Scanned(listing, MAX_RELEASES_PER_PAGE, MAX_RELEASE_PAGES)
            else
              var items := Page(listing, MAX_RELEASES_PER_PAGE, page);
              if |items| < MAX_RELEASES_PER_PAGE || HasFloor(a, items)
              then Scanned(listing, MAX_RELEASES_PER_PAGE, page)
              else Reach(a, listing, page + 1)
  {
  }

  method ReadPage(a: Ask, items: seq<Upstream>, before: seq<Upstream>) returns (unseen: seq<Upstream>, reached: bool)
    ensures unseen == before + Unseen(a, items) && (reached <==> HasFloor(a, items))
  {
    unseen, reached := before, false;
    for k := 0 to |items|
      invariant unseen == before + Unseen(a, items[..k])
      invariant reached <==> HasFloor(a, items[..k])
    {
      var u := items[k];
      assert items[..k + 1][..k] == items[..k];
      assert items[..k + 1] == items[..k] + [u];
      UnseenJoin(a, items[..k], [u]);
      FloorOfOne(a, u);
      if Stable(u) {
        if !Less(a.floor, u.tag.number) {
          reached := true;
        } else if Bare(u.tag) !in a.known && (a.ceiling.None? || !Less(NumberOf(a.ceiling.value), u.tag.number)) {
          unseen := unseen + [u];
        }
      }
    }
    assert items[..|items|] == items;
  }

  lemma FloorOfOne(a: Ask, u: Upstream)
    ensures HasFloor(a, [u]) <==> AtFloor(a, u)
  {
    assert u in [u];
  }

  lemma {:induction false} UnseenJoin(a: Ask, x: seq<Upstream>, y: seq<Upstream>)
    ensures Unseen(a, x + y) == Unseen(a, x) + Unseen(a, y)
    ensures HasFloor(a, x + y) <==> HasFloor(a, x) || HasFloor(a, y)
    decreases |y|
  {
    if y == [] {
      assert x + y == x;
    } else {
      var n := |y| - 1;
      UnseenJoin(a, x, y[..n]);
      assert (x + y)[..|x| + n] == x + y[..n];
      assert forall u :: u in x + y <==> u in x || u in y;
      assert y == y[..n] + [y[n]];
    }
  }

  lemma {:induction false} ReachBounded(a: Ask, listing: seq<Upstream>, page: nat)
    requires page > 0
    ensures Reach(a, listing, page) <= |listing|
    decreases MAX_RELEASE_PAGES + 1 - page
  {
    if page <= MAX_RELEASE_PAGES { ReachBounded(a, listing, page + 1); }
  }

  // When discovery is complete.

  /** The page, counted from 0, that lists place `k`. */
  function PageOf(k: nat): nat { k / MAX_RELEASES_PER_PAGE }

  /** What is looked at. */
  function Seen(a: Ask, listing: seq<Upstream>): seq<Upstream> {
    listing[..Min(Reach(a, listing, 1), |listing|)]
  }

  predicate FloorAt(a: Ask, listing: seq<Upstream>, p: nat) { p < |listing| && AtFloor(a, listing[p]) }

  predicate WantedAt(a: Ask, listing: seq<Upstream>, k: nat) { k < |listing| && Wanted(a, listing[k]) }

  /** No wanted release is listed on a later page than a release at or below the floor. */
  ghost predicate WantedFirst(a: Ask, listing: seq<Upstream>) {
    forall k: nat, p: nat :: WantedAt(a, listing, k) && FloorAt(a, listing, p) ==> PageOf(k) <= PageOf(p)
  }

  /** An exhausted discovery returns every wanted release of the whole listing exactly when none
      is listed on a later page than a release at or below the floor. */
  lemma CompleteExactly(a: Ask, listing: seq<Upstream>)
    requires Exhausted(a, listing)
    ensures Unseen(a, Seen(a, listing)) == Unseen(a, listing) <==> WantedFirst(a, listing)
  {
    hide Unseen, AtFloor, Wanted, Reach;
    var reach := Min(Reach(a, listing, 1), |listing|);
    BeyondReach(a, listing);
    ReachBounded(a, listing, 1);
    if WantedFirst(a, listing) {
      if k: nat :| reach <= k && WantedAt(a, listing, k) {
        var p := FloorBeforeReach(a, listing);
        LaterPage(reach, p, k);
      }
    } else {
      var k: nat, p: nat :| WantedAt(a, listing, k) && FloorAt(a, listing, p) && PageOf(k) > PageOf(p);
      ReachStopsAt(a, listing, 1, p);
      LaterPlace(k, p);
    }
  }

  lemma LaterPage(reach: nat, p: nat, k: nat)
    requires (PageOf(p) + 1) * MAX_RELEASES_PER_PAGE == reach <= k
    ensures PageOf(k) > PageOf(p)
  {
  }

  lemma LaterPlace(k: nat, p: nat)
    requires PageOf(k) > PageOf(p)
    ensures k >= (PageOf(p) + 1) * MAX_RELEASES_PER_PAGE
  {
  }

  /** In terms of the scan: nothing wanted lies beyond what is looked at. */
  lemma BeyondReach(a: Ask, listing: seq<Upstream>)
    ensures Unseen(a, Seen(a, listing)) == Unseen(a, listing) <==>
            forall k: nat | Min(Reach(a, listing, 1), |listing|) <= k :: !WantedAt(a, listing, k)
  {
    hide *;
    SeenIs(a, listing);
    var reach := Min(Reach(a, listing, 1), |listing|);
    CutIsWhole(a, listing, reach);
    NothingBeyond(a, listing, reach);
  }

  lemma SeenIs(a: Ask, listing: seq<Upstream>)
    ensures Seen(a, listing) == listing[..Min(Reach(a, listing, 1), |listing|)]
    ensures Min(Reach(a, listing, 1), |listing|) <= |listing|
  {
  }

  lemma CutIsWhole(a: Ask, listing: seq<Upstream>, n: nat)
    requires n <= |listing|
    ensures Unseen(a, listing[..n]) == Unseen(a, listing) <==> Unseen(a, listing[n..]) == []
  {
    hide Unseen;
    UnseenJoin(a, listing[..n], listing[n..]);
    assert listing[..n] + listing[n..] == listing;
  }

  lemma NothingBeyond(a: Ask, listing: seq<Upstream>, n: nat)
    requires n <= |listing|
    ensures Unseen(a, listing[n..]) == [] <==> forall k: nat | n <= k :: !WantedAt(a, listing, k)
  {
    hide Unseen, Wanted;
    var rest := listing[n..];
    UnseenNothing(a, rest);
    forall k: nat | k < |rest|
      ensures rest[k] == listing[k + n] && (WantedAt(a, listing, k + n) <==> Wanted(a, rest[k]))
    {
    }
    forall k: nat | n <= k && WantedAt(a, listing, k) ensures Wanted(a, rest[k - n]) {
    }
  }

  lemma {:induction false} UnseenNothing(a: Ask, listing: seq<Upstream>)
    ensures Unseen(a, listing) == [] <==> forall k | 0 <= k < |listing| :: !Wanted(a, listing[k])
  {
    if listing != [] { UnseenNothing(a, listing[..|listing| - 1]); }
  }

  /** The scan stops at the latest behind the page of any release at or below the floor. */
  lemma {:induction false} ReachStopsAt(a: Ask, listing: seq<Upstream>, page: nat, p: nat)
    requires 0 < page && FloorAt(a, listing, p) && page - 1 <= PageOf(p)
    ensures Reach(a, listing, page) <= (PageOf(p) + 1) * MAX_RELEASES_PER_PAGE
    decreases MAX_RELEASE_PAGES + 1 - page
  {
    if page <= MAX_RELEASE_PAGES {
      var items := Page(listing, MAX_RELEASES_PER_PAGE, page);
      if page - 1 == PageOf(p) {
        var at := p - (page - 1) * MAX_RELEASES_PER_PAGE;
        assert at < |items| && items[at] == listing[p];
        assert items[at] in items;
      } else if |items| == MAX_RELEASES_PER_PAGE {
        ReachStopsAt(a, listing, page + 1, p);
      }
    }
  }

  /** A scan that stops short of the end stops on a page with such a release, or for its page limit. */
  lemma {:induction false} ReachStopsFor(a: Ask, listing: seq<Upstream>, page: nat) returns (p: nat)
    requires 0 < page <= MAX_RELEASE_PAGES + 1 && (page - 1) * MAX_RELEASES_PER_PAGE <= |listing|
    requires !HasFloor(a, listing[..(page - 1) * MAX_RELEASES_PER_PAGE])
    requires Reach(a, listing, page) < |listing|
    ensures || (FloorAt(a, listing, p) && (PageOf(p) + 1) * MAX_RELEASES_PER_PAGE == Reach(a, listing, page))
            || (Reach(a, listing, page) == MAX_RELEASE_PAGES * MAX_RELEASES_PER_PAGE
                && !HasFloor(a, listing[..Reach(a, listing, page)]))
    decreases MAX_RELEASE_PAGES + 1 - page
  {
    p := 0;
    if page <= MAX_RELEASE_PAGES {
      var items, seen := Page(listing, MAX_RELEASES_PER_PAGE, page), (page - 1) * MAX_RELEASES_PER_PAGE;
      if |items| == MAX_RELEASES_PER_PAGE {
        if HasFloor(a, items) {
          var u :| u in items && AtFloor(a, u);
          var i :| 0 <= i < |items| && items[i] == u;
          p := seen + i;
        } else {
          assert listing[..seen] + items == listing[..page * MAX_RELEASES_PER_PAGE];
          UnseenJoin(a, listing[..seen], items);
          p := ReachStopsFor(a, listing, page + 1);
        }
      }
    }
  }

  lemma FloorBeforeReach(a: Ask, listing: seq<Upstream>) returns (p: nat)
    requires Exhausted(a, listing) && Reach(a, listing, 1) < |listing|
    ensures FloorAt(a, listing, p) && (PageOf(p) + 1) * MAX_RELEASES_PER_PAGE == Reach(a, listing, 1)
  {
    hide Reach;
    Nothing(a);
    assert listing[..0] == [];
    p := ReachStopsFor(a, listing, 1);
  }

  /** A listing that never goes back up, newest version first, is always read completely. */
  lemma DescendingIsComplete(a: Ask, listing: seq<Upstream>)
    requires forall i, j | 0 <= i < j < |listing| && Stable(listing[i]) && Stable(listing[j]) ::
               !Less(listing[i].tag.number, listing[j].tag.number)
    requires Exhausted(a, listing)
    ensures Unseen(a, Seen(a, listing)) == Unseen(a, listing)
  {
    hide Unseen, Reach, Exhausted;
    forall k: nat, p: nat | FloorAt(a, listing, p) && p <= k ensures !WantedAt(a, listing, k) {
      assert p < k < |listing| && Stable(listing[k]) ==> !Less(listing[p].tag.number, listing[k].tag.number);
    }
    forall k: nat, p: nat ensures k < p ==> PageOf(k) <= PageOf(p) { EarlierPage(k, p); }
    CompleteExactly(a, listing);
  }

  lemma EarlierPage(k: nat, p: nat)
    ensures k < p ==> PageOf(k) <= PageOf(p)
  {
  }

  // A backport hides a release.

  const BACKPORT := Upstream(Written(true, Semver(1, 4, 9)), false, false)
  const DRAFT := Upstream(Written(true, Semver(1, 5, 1)), true, false)
  const HIDDEN := Upstream(Written(true, Semver(1, 6, 0)), false, false)
  const BACKPORT_FIRST: seq<Upstream> := [BACKPORT] + Repeat(DRAFT, 49) + [HIDDEN]
  const ABOVE_1_5_0 := Ask(Semver(1, 5, 0), {}, None)

  /** A patch of an old line, listed first, ends discovery before the second page: it succeeds
      without the new release there. */
  lemma BackportHidesARelease()
    ensures |BACKPORT_FIRST| == 51 && Exhausted(ABOVE_1_5_0, BACKPORT_FIRST) && ValidAsk(ABOVE_1_5_0)
    ensures Wanted(ABOVE_1_5_0, HIDDEN) && HIDDEN in BACKPORT_FIRST
    ensures Unseen(ABOVE_1_5_0, Seen(ABOVE_1_5_0, BACKPORT_FIRST)) == []
    ensures Unseen(ABOVE_1_5_0, BACKPORT_FIRST) != []
  {
    hide Unseen, Reach, Page, HasFloor, Wanted;
    var listing, a := BACKPORT_FIRST, ABOVE_1_5_0;
    BackportVerdicts();
    BackportReach();
    assert listing[50] == HIDDEN;
    UnseenNothing(a, listing[..50]);
    UnseenNothing(a, listing);
  }

  lemma BackportVerdicts()
    ensures AtFloor(ABOVE_1_5_0, BACKPORT) && Wanted(ABOVE_1_5_0, HIDDEN)
    ensures !Wanted(ABOVE_1_5_0, BACKPORT) && !Wanted(ABOVE_1_5_0, DRAFT)
  {
  }

  lemma BackportReach()
    ensures Reach(ABOVE_1_5_0, BACKPORT_FIRST, 1) == 50 && Exhausted(ABOVE_1_5_0, BACKPORT_FIRST)
  {
    hide Reach, AtFloor;
    var page := Page(BACKPORT_FIRST, MAX_RELEASES_PER_PAGE, 1);
    BackportVerdicts();
    assert page[0] == BACKPORT && BACKPORT in page;
    ReachAt(ABOVE_1_5_0, BACKPORT_FIRST, 1);
  }
}
