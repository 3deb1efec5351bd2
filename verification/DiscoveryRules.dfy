/** What a discovery looks at and what it returns, release by release. */
module DiscoveryRules {
  import opened Remote
  import opened Collections
  import opened Versions
  import opened Discovery

  /** A published stable release whose tag is a version. */
  predicate Candidate(u: Upstream, number: Semver) {
    u == Upstream(Written(u.tag.Written? && u.tag.prefixed, number), false, false)
  }

  /** Some candidate among these is at or below the floor. */
  predicate ReachesFloor(floor: Semver, items: seq<Upstream>) {
    exists i | 0 <= i < |items| :: items[i].tag.Written? && Candidate(items[i], items[i].tag.number)
                                   && (items[i].tag.number == floor || Less(items[i].tag.number, floor))
  }

  /** The part of the listing that is looked at: one to four pages of fifty, ending with the first one
      that is not full or reaches the floor. */
  ghost predicate LooksAt(a: Ask, listing: seq<Upstream>, n: nat) {
    exists p | 1 <= p <= 4 ::
      && n == Min(50 * p, |listing|)
      && (p < 4 ==> n < 50 * p || ReachesFloor(a.floor, listing[50 * (p - 1)..n]))
      && (forall q | 1 <= q < p :: 50 * q <= |listing| && !ReachesFloor(a.floor, listing[50 * (q - 1)..50 * q]))
  }

  lemma FloorExactly(a: Ask, items: seq<Upstream>)
    ensures HasFloor(a, items) <==> ReachesFloor(a.floor, items)
  {
    if HasFloor(a, items) {
      var u :| u in items && AtFloor(a, u);
      var i :| 0 <= i < |items| && items[i] == u;
      TotalOrder(a.floor, u.tag.number);
      assert items[i].tag.Written? && Candidate(items[i], items[i].tag.number);
    }
    if i :| 0 <= i < |items| && items[i].tag.Written? && Candidate(items[i], items[i].tag.number)
            && (items[i].tag.number == a.floor || Less(items[i].tag.number, a.floor)) {
      assert items[i] in items && AtFloor(a, items[i]);
    }
  }

  lemma TotalOrder(a: Semver, b: Semver)
    ensures !Less(a, b) <==> b == a || Less(b, a)
  {
  }

  lemma ReachExactly(a: Ask, listing: seq<Upstream>)
    ensures LooksAt(a, listing, Reach(a, listing, 1))
  {
    hide HasFloor, ReachesFloor;
    var p := LastPage(a, listing, 1);
  }

  /** The page at which looking stops, from page `q` on. */
  lemma LastPage(a: Ask, listing: seq<Upstream>, q: nat) returns (p: nat)
    requires 1 <= q <= 4 && 50 * (q - 1) <= |listing|
    ensures q <= p <= 4 && Reach(a, listing, q) == Min(50 * p, |listing|)
    ensures p < 4 ==> Min(50 * p, |listing|) < 50 * p
                      || ReachesFloor(a.floor, listing[50 * (p - 1)..Min(50 * p, |listing|)])
    ensures 50 * (p - 1) <= |listing|
    ensures forall k | q <= k < p :: 50 * k <= |listing| && !ReachesFloor(a.floor, listing[50 * (k - 1)..50 * k])
    decreases 4 - q
  {
    hide HasFloor, ReachesFloor, Reach;
    ReachAt(a, listing, q);
    var items := Page(listing, MAX_RELEASES_PER_PAGE, q);
    FloorExactly(a, items);
    p := q;
    if |items| == 50 && !HasFloor(a, items) {
      if q < 4 {
        p := LastPage(a, listing, q + 1);
      } else {
        ReachAt(a, listing, 5);
      }
    }
  }

  /** What a successful discovery returns: of the releases it looked at, exactly the candidates above
      the floor that are not in the manifest and not above the ceiling. */
  lemma ReturnedExactly(a: Ask, listing: seq<Upstream>, u: Upstream)
    requires Reach(a, listing, 1) <= |listing|
    ensures u in Sort(Unseen(a, listing[..Reach(a, listing, 1)]), KeyOfUpstream) <==>
            && u in listing[..Reach(a, listing, 1)] && u.tag.Written? && Candidate(u, u.tag.number)
            && Less(a.floor, u.tag.number) && Written(false, u.tag.number) !in a.known
            && (a.ceiling.Some? ==>
                  u.tag.number == NumberOf(a.ceiling.value) || Less(u.tag.number, NumberOf(a.ceiling.value)))
  {
    hide Sort, Reach;
    var seen := listing[..Reach(a, listing, 1)];
    SameElements(Unseen(a, seen), KeyOfUpstream, u);
    UnseenHolds(a, seen, u);
    if a.ceiling.Some? && u.tag.Written? { TotalOrder(NumberOf(a.ceiling.value), u.tag.number); }
  }

  lemma {:induction false} UnseenHolds(a: Ask, listing: seq<Upstream>, u: Upstream)
    ensures u in Unseen(a, listing) <==> u in listing && Wanted(a, u)
  {
    hide Wanted;
    if listing != [] {
      var n := |listing| - 1;
      UnseenHolds(a, listing[..n], u);
      assert listing == listing[..n] + [listing[n]];
    }
  }

  /** When it succeeds: the ceiling, if there is one, is a version above the floor and among what is
      returned, and looking ended at the floor or at the end of the listing. */
  lemma SucceedsExactly(a: Ask, listing: seq<Upstream>)
    requires Reach(a, listing, 1) <= |listing|
    ensures ValidAsk(a) <==> (a.ceiling.Some? ==> a.ceiling.value.Written? && Less(a.floor, a.ceiling.value.number))
    ensures Exhausted(a, listing) <==>
            |listing| < 200 || ReachesFloor(a.floor, listing[..Reach(a, listing, 1)])
    ensures var unseen := Unseen(a, listing[..Reach(a, listing, 1)]);
            ValidAsk(a) ==>
              (FindsCeiling(a, unseen) <==>
               (a.ceiling.Some? ==>
                  exists u :: u in unseen && u.tag.Written? && u.tag.number == a.ceiling.value.number))
  {
    hide HasFloor, ReachesFloor, Reach, Less;
    FloorExactly(a, listing[..Reach(a, listing, 1)]);
    var unseen := Unseen(a, listing[..Reach(a, listing, 1)]);
    forall u | u in unseen ensures u.tag.Written? { UnseenHolds(a, listing[..Reach(a, listing, 1)], u); }
    if ValidAsk(a) && a.ceiling.Some? {
      forall u | u in unseen ensures Bare(u.tag) == Bare(a.ceiling.value) <==> u.tag.number == a.ceiling.value.number {
      }
    }
  }
}
