/** The guest's search conditions, kept on the client as one record that
    the setters and resets overwrite field by field. Changing a condition
    that selects or orders hotels sends the list back to its first page;
    changing the dates, the page or the more-to-load flag does not. */
module SearchStore {
  import opened JsCore

  datatype SortKey = Default | PriceAsc | PriceDesc | Rating | Id

  datatype NearbyKind = Attraction | Transport | Shopping

  /** The search record; `None` stands for `undefined`. */
  datatype SearchState = SearchState(
    keyword: string,
    city: string,
    checkinDate: string,
    checkoutDate: string,
    starRating: Option<int>,
    minPrice: Option<int>,
    maxPrice: Option<int>,
    sortBy: SortKey,
    nearbyType: Option<NearbyKind>,
    page: int,
    pageSize: int,
    hasMore: bool)

  /** `resetFilters`: every filter cleared, the order by id, the first page;
      the dates, the page size and the flag stay. */
  function FiltersCleared(s: SearchState): (r: SearchState)
    ensures r.keyword == "" && r.city == "" && r.nearbyType == None
    ensures r.starRating == None && r.minPrice == None && r.maxPrice == None
    ensures r.sortBy == Id && r.page == 1
    ensures r.checkinDate == s.checkinDate && r.checkoutDate == s.checkoutDate
    ensures r.pageSize == s.pageSize && r.hasMore == s.hasMore
  {
    s.(keyword := "", city := "", starRating := None, minPrice := None, maxPrice := None,
       sortBy := Id, nearbyType := None, page := 1)
  }

  /** `resetFiltersKeepKeyword`: the star, price and nearby filters cleared,
      the order by id, the first page. */
  function FiltersClearedKeepingKeyword(s: SearchState): SearchState
  {
    s.(starRating := None, minPrice := None, maxPrice := None, sortBy := Id,
       nearbyType := None, page := 1)
  }

  /** `resetSort`: the order by id, the first page. */
  function SortCleared(s: SearchState): SearchState
  {
    s.(sortBy := Id, page := 1)
  }

  /** Keeping the keyword is `resetFilters` with the keyword and the city
      put back. */
  lemma KeepKeywordIsFiltersCleared(s: SearchState)
    ensures FiltersClearedKeepingKeyword(s) == FiltersCleared(s).(keyword := s.keyword, city := s.city)
  {
  }

  /** Resetting the order touches only the order and the page, and after a
      full reset it changes nothing. */
  lemma SortClearedAfterReset(s: SearchState)
    ensures SortCleared(s).(sortBy := s.sortBy, page := s.page) == s
    ensures SortCleared(FiltersCleared(s)) == FiltersCleared(s)
    ensures FiltersCleared(FiltersCleared(s)) == FiltersCleared(s)
  {
  }

  class Store {
    var keyword: string
    var city: string
    var checkinDate: string
    var checkoutDate: string
    var starRating: Option<int>
    var minPrice: Option<int>
    var maxPrice: Option<int>
    var sortBy: SortKey
    var nearbyType: Option<NearbyKind>
    var page: int
    var pageSize: int
    var hasMore: bool

    function State(): SearchState
      reads this
    {
      SearchState(keyword, city, checkinDate, checkoutDate, starRating, minPrice, maxPrice,
                  sortBy, nearbyType, page, pageSize, hasMore)
    }

    /** The initial state; the default dates (today and tomorrow) come from
        the clock and are passed in. */
    constructor (today: string, tomorrow: string)
      ensures State() == SearchState("", "", today, tomorrow, None, None, None, Default, None, 1, 10, true)
    {
      keyword, city := "", "";
      checkinDate, checkoutDate := today, tomorrow;
      starRating, minPrice, maxPrice := None, None, None;
      sortBy := Default;
      nearbyType := None;
      page, pageSize := 1, 10;
      hasMore := true;
    }

    method SetKeyword(k: string)
      modifies this
      ensures State() == old(State()).(keyword := k, page := 1)
    {
      keyword, page := k, 1;
    }

    method SetCity(c: string)
      modifies this
      ensures State() == old(State()).(city := c, page := 1)
    {
      city, page := c, 1;
    }

    method SetDates(checkin: string, checkout: string)
      modifies this
      ensures State() == old(State()).(checkinDate := checkin, checkoutDate := checkout)
    {
      checkinDate, checkoutDate := checkin, checkout;
    }

    method SetStarRating(rating: Option<int>)
      modifies this
      ensures State() == old(State()).(starRating := rating, page := 1)
    {
      starRating, page := rating, 1;
    }

    method SetPriceRange(min: Option<int>, max: Option<int>)
      modifies this
      ensures State() == old(State()).(minPrice := min, maxPrice := max, page := 1)
    {
      minPrice, maxPrice, page := min, max, 1;
    }

    method SetNearbyType(kind: Option<NearbyKind>)
      modifies this
      ensures State() == old(State()).(nearbyType := kind, page := 1)
    {
      nearbyType, page := kind, 1;
    }

    method SetSortBy(sort: SortKey)
      modifies this
      ensures State() == old(State()).(sortBy := sort, page := 1)
    {
      sortBy, page := sort, 1;
    }

    method SetPage(p: int)
      modifies this
      ensures State() == old(State()).(page := p)
    {
      page := p;
    }

    method SetHasMore(more: bool)
      modifies this
      ensures State() == old(State()).(hasMore := more)
    {
      hasMore := more;
    }

    method ResetFilters()
      modifies this
      ensures State() == FiltersCleared(old(State()))
    {
      ghost var before := State();
      keyword, city := "", "";
      starRating, minPrice, maxPrice := None, None, None;
      sortBy := Id;
      nearbyType := None;
      page := 1;
      assert State() == SearchState("", "", before.checkinDate, before.checkoutDate, None, None, None,
                                    Id, None, 1, before.pageSize, before.hasMore);
    }

    method ResetSort()
      modifies this
      ensures State() == SortCleared(old(State()))
    {
      sortBy, page := Id, 1;
    }

    method ResetFiltersKeepKeyword()
      modifies this
      ensures State() == FiltersClearedKeepingKeyword(old(State()))
    {
      starRating, minPrice, maxPrice := None, None, None;
      sortBy := Id;
      nearbyType := None;
      page := 1;
    }
  }
}
