/** The profile page's split of the user's own listings into the active
    ones and the sold (inactive) ones. */
module ProfilePage {
  import opened Basics
  import opened Seqs
  import opened Tables
  import opened Schema
  import opened Storage

  predicate IsSold(l: Listing) {
    !l.isActive
  }

  /** `activeListings`: the listings still for sale, in the order fetched. */
  function ActiveListings(ls: seq<Listing>): (r: seq<Listing>)
    ensures forall l :: l in r <==> l in ls && l.isActive
    ensures IsSubseq(r, ls)
  {
    FilterMembership(ls, IsActiveListing);
    FilterIsSubseq(ls, IsActiveListing);
    Filter(ls, IsActiveListing)
  }

  /** `soldListings`: the listings marked inactive, in the order fetched. */
  function SoldListings(ls: seq<Listing>): (r: seq<Listing>)
    ensures forall l :: l in r <==> l in ls && !l.isActive
    ensures IsSubseq(r, ls)
  {
    FilterMembership(ls, IsSold);
    FilterIsSubseq(ls, IsSold);
    Filter(ls, IsSold)
  }

  /** The two tabs split the user's listings: each listing lands in exactly
      one of them, as often as it occurs, so the counts add up. */
  lemma ActiveSoldPartition(ls: seq<Listing>)
    ensures |ActiveListings(ls)| + |SoldListings(ls)| == |ls|
    ensures multiset(ActiveListings(ls)) + multiset(SoldListings(ls)) == multiset(ls)
    ensures forall l :: l in ls ==> (l in ActiveListings(ls) <==> l !in SoldListings(ls))
  {
    FilterSplit(ls, IsActiveListing, IsSold);
  }

  /** Marking a listing sold moves it from its owner's active tab to the
      sold tab. */
  lemma MarkSoldMovesTab(s: Store, id: Id)
    requires id in s.listings.rows
    ensures var s1 := UpdateListing(s, id, NoListingChanges.(isActive := Some(false))).0;
      var l := s1.listings.rows[id];
      var mine := GetListingsByUser(s1, l.userId);
      && l in SoldListings(mine)
      && l !in ActiveListings(mine)
  {
    var s1 := UpdateListing(s, id, NoListingChanges.(isActive := Some(false))).0;
    assert s1.listings.rows[id] in s1.listings.rows.Values;
  }
}
