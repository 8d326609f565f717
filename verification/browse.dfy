/** The marketplace page's client-side filter: free-text search over title
    and description, a category select, and four integer price buckets. */
module Browse {
  import opened Basics
  import opened Seqs
  import opened Text
  import opened Schema
  import opened Storage

  /** The three controls of the filter bar, as the strings the page keeps. */
  datatype Filters = Filters(search: string, category: string, priceRange: string)

  /** The controls after `clearFilters`. */
  function ClearFilters(): (f: Filters)
    ensures f.search == "" && f.category == "all" && f.priceRange == "any"
  {
    Filters("", "all", "any")
  }

  /** The controls when the page opens: `category` and `search` come from the
      query string (missing or empty category means "all"); price is "any". */
  function InitialFilters(categoryParam: Option<string>, searchParam: Option<string>): (f: Filters)
    ensures f.priceRange == "any"
    ensures f.category == "all" <==> !Truthy(categoryParam) || categoryParam.value == "all"
    ensures Truthy(categoryParam) ==> f.category == categoryParam.value
    ensures f.search == if searchParam.Some? then searchParam.value else ""
  {
    Filters(searchParam.GetOr(""), if Truthy(categoryParam) then categoryParam.value else "all", "any")
  }

  /** An empty query matches everything; otherwise the lower-cased query must
      occur in the lower-cased title or description. */
  predicate MatchesSearch(l: Listing, q: string) {
    q == "" || Includes(Lower(l.title), Lower(q)) || Includes(Lower(l.description), Lower(q))
  }

  /** Empty or "all" matches everything; otherwise case-insensitive equality. */
  predicate MatchesCategory(l: Listing, category: string) {
    category == "" || category == "all" || Lower(l.category) == Lower(category)
  }

  /** The price select. An unknown value, like "any" or "", keeps everything. */
  predicate InPriceRange(price: int, range: string) {
    if range == "under-50" then price < 50
    else if range == "50-100" then 50 <= price <= 100
    else if range == "100-500" then 100 < price <= 500
    else if range == "over-500" then price > 500
    else true
  }

  function Passes(f: Filters): Listing -> bool {
    (l: Listing) => MatchesSearch(l, f.search) && MatchesCategory(l, f.category)
                    && InPriceRange(l.price, f.priceRange)
  }

  /** `filteredListings`: the listings passing all three controls, in the
      order they were fetched. */
  function FilteredListings(ls: seq<Listing>, f: Filters): (r: seq<Listing>)
    ensures forall l :: l in r <==>
      && l in ls
      && MatchesSearch(l, f.search)
      && MatchesCategory(l, f.category)
      && InPriceRange(l.price, f.priceRange)
    ensures IsSubseq(r, ls)
    ensures forall l :: multiset(r)[l] == if Passes(f)(l) then multiset(ls)[l] else 0
  {
    FilterMembership(ls, Passes(f));
    FilterIsSubseq(ls, Passes(f));
    FilterCount(ls, Passes(f));
    Filter(ls, Passes(f))
  }

  /** The search in terms of substrings: a non-empty query matches exactly
      when its lower-cased form occurs at some position of the lower-cased
      title or description. */
  lemma SearchSemantics(l: Listing, q: string)
    ensures MatchesSearch(l, q) <==>
      || q == ""
      || (exists i :: OccursAt(Lower(l.title), Lower(q), i))
      || (exists i :: OccursAt(Lower(l.description), Lower(q), i))
  {
  }

  /** The search ignores the case of the query. */
  lemma SearchIgnoresCase(l: Listing, q: string)
    ensures MatchesSearch(l, q) <==> MatchesSearch(l, Lower(q))
  {
    LowerIdempotent(q);
  }

  /** The four buckets are pairwise disjoint and together cover every
      integer price: each price lies in exactly one. */
  lemma PriceBucketsPartition(price: int)
    ensures (if InPriceRange(price, "under-50") then 1 else 0)
          + (if InPriceRange(price, "50-100") then 1 else 0)
          + (if InPriceRange(price, "100-500") then 1 else 0)
          + (if InPriceRange(price, "over-500") then 1 else 0) == 1
  {
  }

  /** After `clearFilters` every listing is shown, in order. */
  lemma ClearFiltersShowsAll(ls: seq<Listing>)
    ensures FilteredListings(ls, ClearFilters()) == ls
  {
    FilterKeepsAll(ls, Passes(ClearFilters()));
  }

  /** Opening the page without query parameters is the cleared state. */
  lemma InitialWithoutParamsIsCleared()
    ensures InitialFilters(None, None) == ClearFilters()
  {
  }

  /** Applying the same filter again changes nothing. */
  lemma FilterIdempotent(ls: seq<Listing>, f: Filters)
    ensures FilteredListings(FilteredListings(ls, f), f) == FilteredListings(ls, f)
  {
    FilterKeepsAll(FilteredListings(ls, f), Passes(f));
  }

  /** The page fetches `GET /api/listings` without parameters, so it only
      ever shows active listings of the store. */
  lemma BrowseShowsActiveOnly(s: Store, f: Filters)
    ensures forall l :: l in FilteredListings(GetAllListings(s), f) ==>
      l in s.listings.rows.Values && l.isActive
  {
  }
}
