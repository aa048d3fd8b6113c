/** The read-only handlers of the hotel routes: the public list with its
    filter, sort, page and projection stages, the top-rated recommendations,
    the keyword search, the hotel detail, the administrator's list and a
    merchant's own list. Each is a function of the stored hotel sequence, which
    none of them changes; the sorts act on filtered copies. */
module HotelQueries {
  import opened JsCore
  import opened Sorting
  import opened Records

  // ---------------------------------------------------------------------------
  // Filters

  /** The query of `GET /hotels` after parsing: `page` and `pageSize` already
      defaulted (1 and 10), the strings "" when absent. */
  datatype ListQuery = ListQuery(
    page: int,
    pageSize: int,
    keyword: string,
    city: string,
    starRating: Param,
    minPrice: Param,
    maxPrice: Param,
    sortBy: string,
    nearbyType: string)

  /** The lower-cased keyword occurs in the lower-cased name, address or
      English name. */
  predicate KeywordMatch(h: Hotel, keywordLower: string)
  {
    || Includes(ToLower(h.name), keywordLower)
    || Includes(ToLower(h.address), keywordLower)
    || (h.nameEn != "" && Includes(ToLower(h.nameEn), keywordLower))
  }

  /** The city filter is a case-sensitive substring test. */
  predicate CityMatch(h: Hotel, city: string)
  {
    Includes(h.city, city)
  }

  /** `hotel.star_rating === parseInt(star_rating)`; NaN equals nothing. */
  predicate StarMatch(h: Hotel, star: Param)
  {
    star.Num? && h.starRating == star.n
  }

  /** The price filter as the handler writes it: both bounds, or the one
      given. */
  predicate PriceMatch(h: Hotel, lo: Param, hi: Param)
  {
    if !lo.Absent? && !hi.Absent? then AtLeast(h.minPrice, lo) && AtMost(h.minPrice, hi)
    else if !lo.Absent? then AtLeast(h.minPrice, lo)
    else if !hi.Absent? then AtMost(h.minPrice, hi)
    else true
  }

  /** The price filter is the conjunction of an inclusive lower bound and an
      inclusive upper bound, each honoured on its own. */
  lemma PriceMatchBounds(h: Hotel, lo: Param, hi: Param)
    ensures PriceMatch(h, lo, hi) <==>
              (lo.Absent? || (lo.Num? && lo.n <= h.minPrice)) && (hi.Absent? || (hi.Num? && h.minPrice <= hi.n))
  {
  }

  /** Some nearby place has the requested type; a hotel without a nearby
      places array never matches. */
  predicate NearbyMatch(h: Hotel, kind: string)
  {
    h.nearbyPlaces.Some?
    && exists k | 0 <= k < |h.nearbyPlaces.value| :: h.nearbyPlaces.value[k].kind == kind
  }

  /** Everything a hotel must satisfy to survive the public list's filters. */
  predicate MatchesQuery(h: Hotel, q: ListQuery)
  {
    && Visible(h)
    && KeepsKeyword(h, q.keyword)
    && KeepsCity(h, q.city)
    && KeepsStars(h, q.starRating)
    && PriceMatch(h, q.minPrice, q.maxPrice)
    && KeepsNearby(h, q.nearbyType)
  }

  /** The conditions of the six filter stages, one per stage. */
  predicate KeepsKeyword(h: Hotel, keyword: string)
  {
    keyword == "" || KeywordMatch(h, ToLower(keyword))
  }

  predicate KeepsCity(h: Hotel, city: string)
  {
    city == "" || CityMatch(h, city)
  }

  predicate KeepsStars(h: Hotel, star: Param)
  {
    star.Absent? || StarMatch(h, star)
  }

  predicate KeepsNearby(h: Hotel, kind: string)
  {
    kind == "" || NearbyMatch(h, kind)
  }

  function ByKeyword(hs: seq<Hotel>, keyword: string): (r: seq<Hotel>)
    ensures forall i :: 0 <= i < |r| ==> r[i] in hs && KeepsKeyword(r[i], keyword)
    ensures forall i :: 0 <= i < |hs| && KeepsKeyword(hs[i], keyword) ==> hs[i] in r
    ensures SubsequenceOf(r, hs)
  {
    if keyword == "" then SubsequenceRefl(hs); hs
    else
      var keywordLower := ToLower(keyword);
      Filter(hs, h => KeywordMatch(h, keywordLower))
  }

  function ByCity(hs: seq<Hotel>, city: string): (r: seq<Hotel>)
    ensures forall i :: 0 <= i < |r| ==> r[i] in hs && KeepsCity(r[i], city)
    ensures forall i :: 0 <= i < |hs| && KeepsCity(hs[i], city) ==> hs[i] in r
    ensures SubsequenceOf(r, hs)
  {
    if city == "" then SubsequenceRefl(hs); hs else Filter(hs, h => CityMatch(h, city))
  }

  function ByStars(hs: seq<Hotel>, star: Param): (r: seq<Hotel>)
    ensures forall i :: 0 <= i < |r| ==> r[i] in hs && KeepsStars(r[i], star)
    ensures forall i :: 0 <= i < |hs| && KeepsStars(hs[i], star) ==> hs[i] in r
    ensures SubsequenceOf(r, hs)
  {
    if star.Absent? then SubsequenceRefl(hs); hs else Filter(hs, h => StarMatch(h, star))
  }

  function ByPrice(hs: seq<Hotel>, lo: Param, hi: Param): (r: seq<Hotel>)
    ensures forall i :: 0 <= i < |r| ==> r[i] in hs && PriceMatch(r[i], lo, hi)
    ensures forall i :: 0 <= i < |hs| && PriceMatch(hs[i], lo, hi) ==> hs[i] in r
    ensures SubsequenceOf(r, hs)
  {
    if lo.Absent? && hi.Absent? then SubsequenceRefl(hs); hs
    else Filter(hs, h => PriceMatch(h, lo, hi))
  }

  function ByNearby(hs: seq<Hotel>, kind: string): (r: seq<Hotel>)
    ensures forall i :: 0 <= i < |r| ==> r[i] in hs && KeepsNearby(r[i], kind)
    ensures forall i :: 0 <= i < |hs| && KeepsNearby(hs[i], kind) ==> hs[i] in r
    ensures SubsequenceOf(r, hs)
  {
    if kind == "" then SubsequenceRefl(hs); hs else Filter(hs, h => NearbyMatch(h, kind))
  }

  /** Each stage keeps every copy of a hotel meeting its condition and drops
      every copy of one that does not. */
  lemma ByKeywordCount(hs: seq<Hotel>, keyword: string, x: Hotel)
    ensures multiset(ByKeyword(hs, keyword))[x] == if KeepsKeyword(x, keyword) then multiset(hs)[x] else 0
  {
    if keyword != "" {
      FilterCount(hs, h => KeywordMatch(h, ToLower(keyword)), x);
    }
  }

  lemma ByCityCount(hs: seq<Hotel>, city: string, x: Hotel)
    ensures multiset(ByCity(hs, city))[x] == if KeepsCity(x, city) then multiset(hs)[x] else 0
  {
    if city != "" {
      FilterCount(hs, h => CityMatch(h, city), x);
    }
  }

  lemma ByStarsCount(hs: seq<Hotel>, star: Param, x: Hotel)
    ensures multiset(ByStars(hs, star))[x] == if KeepsStars(x, star) then multiset(hs)[x] else 0
  {
    if !star.Absent? {
      FilterCount(hs, h => StarMatch(h, star), x);
    }
  }

  lemma ByPriceCount(hs: seq<Hotel>, lo: Param, hi: Param, x: Hotel)
    ensures multiset(ByPrice(hs, lo, hi))[x] == if PriceMatch(x, lo, hi) then multiset(hs)[x] else 0
  {
    if !(lo.Absent? && hi.Absent?) {
      FilterCount(hs, h => PriceMatch(h, lo, hi), x);
    }
  }

  lemma ByNearbyCount(hs: seq<Hotel>, kind: string, x: Hotel)
    ensures multiset(ByNearby(hs, kind))[x] == if KeepsNearby(x, kind) then multiset(hs)[x] else 0
  {
    if kind != "" {
      FilterCount(hs, h => NearbyMatch(h, kind), x);
    }
  }

  /** The filter stages in the handler's order: visibility, keyword, city,
      stars, price, nearby type. */
  function Filtered(hs: seq<Hotel>, q: ListQuery): seq<Hotel>
  {
    var visible := Filter(hs, Visible);
    ByNearby(ByPrice(ByStars(ByCity(ByKeyword(visible, q.keyword), q.city), q.starRating),
                     q.minPrice, q.maxPrice), q.nearbyType)
  }

  /** The filters keep exactly the stored hotels that match the query, and
      only ever drop hotels: the survivors keep their stored order. */
  lemma FilteredSpec(hs: seq<Hotel>, q: ListQuery)
    ensures forall i :: 0 <= i < |Filtered(hs, q)| ==>
              Filtered(hs, q)[i] in hs && MatchesQuery(Filtered(hs, q)[i], q)
    ensures forall i :: 0 <= i < |hs| && MatchesQuery(hs[i], q) ==> hs[i] in Filtered(hs, q)
    ensures SubsequenceOf(Filtered(hs, q), hs)
  {
    var s0 := Filter(hs, Visible);
    var s1 := ByKeyword(s0, q.keyword);
    var s2 := ByCity(s1, q.city);
    var s3 := ByStars(s2, q.starRating);
    var s4 := ByPrice(s3, q.minPrice, q.maxPrice);
    var s5 := ByNearby(s4, q.nearbyType);
    SubsequenceTrans(s1, s0, hs);
    SubsequenceTrans(s2, s1, hs);
    SubsequenceTrans(s3, s2, hs);
    SubsequenceTrans(s4, s3, hs);
    SubsequenceTrans(s5, s4, hs);
  }

  /** A hotel stored several times survives the filters as many times, or
      not at all: with FilteredSpec, the filtered list is exactly the stored
      list with the non-matching entries taken out. */
  lemma FilteredCount(hs: seq<Hotel>, q: ListQuery, x: Hotel)
    ensures multiset(Filtered(hs, q))[x] == if MatchesQuery(x, q) then multiset(hs)[x] else 0
  {
    var s0 := Filter(hs, Visible);
    var s1 := ByKeyword(s0, q.keyword);
    var s2 := ByCity(s1, q.city);
    var s3 := ByStars(s2, q.starRating);
    var s4 := ByPrice(s3, q.minPrice, q.maxPrice);
    FilterCount(hs, Visible, x);
    ByKeywordCount(s0, q.keyword, x);
    ByCityCount(s1, q.city, x);
    ByStarsCount(s2, q.starRating, x);
    ByPriceCount(s3, q.minPrice, q.maxPrice, x);
    ByNearbyCount(s4, q.nearbyType, x);
  }

  // ---------------------------------------------------------------------------
  // Sorting

  function IdKey(h: Hotel): int { h.id }
  function PriceKey(h: Hotel): int { h.minPrice }
  function PriceDescKey(h: Hotel): int { -h.minPrice }
  function RatingDescKey(h: Hotel): int { -h.rating }

  /** The comparator chosen by `sort_by`; any other value sorts nothing. */
  function KeyFor(sortBy: string): Option<Hotel -> int>
  {
    if sortBy == "id" then Some(IdKey)
    else if sortBy == "price_asc" then Some(PriceKey)
    else if sortBy == "price_desc" then Some(PriceDescKey)
    else if sortBy == "rating" then Some(RatingDescKey)
    else None
  }

  function SortHotels(hs: seq<Hotel>, sortBy: string): seq<Hotel>
  {
    match KeyFor(sortBy)
    case None => hs
    case Some(key) => SortByKey(hs, key)
  }

  /** Sorting reorders and never adds or drops: `id` ascends by id,
      `price_asc` ascends and `price_desc` descends by minimum price, `rating`
      descends by rating, hotels that tie keep their order, and any other key
      leaves the order as it was. */
  lemma SortHotelsSpec(hs: seq<Hotel>, sortBy: string)
    ensures multiset(SortHotels(hs, sortBy)) == multiset(hs)
    ensures |SortHotels(hs, sortBy)| == |hs|
    ensures sortBy == "id" ==> forall i, j :: 0 <= i < j < |hs| ==>
              SortHotels(hs, sortBy)[i].id <= SortHotels(hs, sortBy)[j].id
    ensures sortBy == "price_asc" ==> forall i, j :: 0 <= i < j < |hs| ==>
              SortHotels(hs, sortBy)[i].minPrice <= SortHotels(hs, sortBy)[j].minPrice
    ensures sortBy == "price_desc" ==> forall i, j :: 0 <= i < j < |hs| ==>
              SortHotels(hs, sortBy)[i].minPrice >= SortHotels(hs, sortBy)[j].minPrice
    ensures sortBy == "rating" ==> forall i, j :: 0 <= i < j < |hs| ==>
              SortHotels(hs, sortBy)[i].rating >= SortHotels(hs, sortBy)[j].rating
    ensures KeyFor(sortBy).Some? ==> forall k ::
              WithKey(SortHotels(hs, sortBy), KeyFor(sortBy).value, k) == WithKey(hs, KeyFor(sortBy).value, k)
    ensures KeyFor(sortBy).None? ==> SortHotels(hs, sortBy) == hs
  {
    match KeyFor(sortBy)
    case None =>
    case Some(key) =>
      SortFacts(hs, key);
      var r := SortByKey(hs, key);
      assert forall i, j :: 0 <= i < j < |r| ==> key(r[i]) <= key(r[j]);
      forall k ensures WithKey(r, key, k) == WithKey(hs, key, k) {
        SortStable(hs, key, k);
      }
  }

  // ---------------------------------------------------------------------------
  // Pages

  /** `Math.ceil(total / pageSize)`. */
  function CeilDiv(total: nat, size: int): nat
    requires size >= 1
  {
    (total + size - 1) / size
  }

  /** The page count is the least number of pages of `size` that hold every
      item. */
  lemma CeilDivSpec(total: nat, size: int)
    requires size >= 1
    ensures (CeilDiv(total, size) - 1) * size < total <= CeilDiv(total, size) * size
  {
    var q := CeilDiv(total, size);
    assert q * size <= total + size - 1 < (q + 1) * size;
  }

  /** `(page - 1) * pageSize`, the position a page starts at, counted out
      page by page from page 1. Written as a recursion rather than the
      product so that proofs about pages see only additions; the product
      is recovered by PageStartIsProduct where it is needed. */
  function PageStart(page: int, pageSize: int): (start: int)
    ensures page >= 1 && pageSize >= 0 ==> start >= 0
    decreases if page >= 1 then page - 1 else 1 - page
  {
    if page == 1 then 0
    else if page > 1 then PageStart(page - 1, pageSize) + pageSize
    else PageStart(page + 1, pageSize) - pageSize
  }

  lemma {:induction false} PageStartIsProduct(page: int, pageSize: int)
    ensures PageStart(page, pageSize) == (page - 1) * pageSize
    decreases if page >= 1 then page - 1 else 1 - page
  {
    if page > 1 {
      PageStartIsProduct(page - 1, pageSize);
    } else if page < 1 {
      PageStartIsProduct(page + 1, pageSize);
    }
  }

  /** `s.slice(start, start + pageSize)` with `start` the page's start. */
  function Paginate<T>(s: seq<T>, page: int, pageSize: int): seq<T>
  {
    var start := PageStart(page, pageSize);
    Slice(s, start, start + pageSize)
  }

  lemma MulMonotone(a: int, b: int, c: int)
    requires a <= b && c >= 0
    ensures a * c <= b * c
  {
  }

  /** A page never holds more than `pageSize` items, and for a page number of
      1 or more it is the run of items from `(page - 1) * pageSize` that fits. */
  lemma PaginateSpec<T>(s: seq<T>, page: int, pageSize: int)
    requires pageSize >= 1
    ensures |Paginate(s, page, pageSize)| <= pageSize
    ensures page >= 1 ==>
              var start := PageStart(page, pageSize);
              var end := start + pageSize;
              start >= 0
              && (start >= |s| ==> Paginate(s, page, pageSize) == [])
              && (start < |s| ==> Paginate(s, page, pageSize) == s[start..if end <= |s| then end else |s|])
  {
    PageStartIsProduct(page, pageSize);
    if page >= 1 {
      MulMonotone(0, page - 1, pageSize);
    } else {
      MulMonotone(page - 1, -1, pageSize);
    }
  }

  /** Item `i` of page `page` is item `PageStart(page, pageSize) + i` of the
      whole sequence. */
  lemma PaginateAt<T>(s: seq<T>, page: int, pageSize: int, i: int)
    requires pageSize >= 1 && page >= 1
    requires 0 <= i < |Paginate(s, page, pageSize)|
    ensures 0 <= PageStart(page, pageSize) + i < |s|
    ensures Paginate(s, page, pageSize)[i] == s[PageStart(page, pageSize) + i]
  {
    PaginateSpec(s, page, pageSize);
  }

  datatype Pagination = Pagination(total: nat, page: int, pageSize: int, totalPages: nat)

  function MakePagination(total: nat, page: int, pageSize: int): (p: Pagination)
    requires pageSize >= 1
    ensures p.total == total && p.page == page && p.pageSize == pageSize
    ensures p.totalPages == CeilDiv(total, pageSize)
  {
    Pagination(total, page, pageSize, CeilDiv(total, pageSize))
  }

  // ---------------------------------------------------------------------------
  // GET /hotels

  /** The list view of a hotel: a subset of its fields, at most two images. */
  datatype HotelSummary = HotelSummary(
    id: int, name: string, nameEn: string, address: string, starRating: int,
    images: seq<string>, minPrice: int, rating: int, reviewCount: int,
    distance: string, facilities: string, description: string, phone: string,
    email: string, nearbyPlaces: Option<seq<NearbyPlace>>)

  function Summarize(h: Hotel): (s: HotelSummary)
    ensures s.id == h.id && s.name == h.name && s.minPrice == h.minPrice && s.rating == h.rating
    ensures s.images <= h.images
    ensures |s.images| == if |h.images| < 2 then |h.images| else 2
  {
    TakeFront(h.images, 2);
    HotelSummary(h.id, h.name, h.nameEn, h.address, h.starRating, Slice(h.images, 0, 2),
                 h.minPrice, h.rating, h.reviewCount, h.distance, h.facilities,
                 h.description, h.phone, h.email, h.nearbyPlaces)
  }

  datatype HotelPage = HotelPage(data: seq<HotelSummary>, pagination: Pagination)

  /** The filtered hotels in the requested order, before paging. */
  function Ordered(hs: seq<Hotel>, q: ListQuery): (r: seq<Hotel>)
    ensures |r| == |Filtered(hs, q)|
  {
    SortHotelsSpec(Filtered(hs, q), q.sortBy);
    SortHotels(Filtered(hs, q), q.sortBy)
  }

  /** One page of an ordered list of hotels, each shown as its summary,
      with the counts of the whole list. */
  function ListPage(ordered: seq<Hotel>, page: int, pageSize: int): (r: HotelPage)
    requires pageSize >= 1
    ensures r.pagination == MakePagination(|ordered|, page, pageSize)
    ensures |r.data| == |Paginate(ordered, page, pageSize)|
    ensures forall i :: 0 <= i < |r.data| ==> r.data[i] == Summarize(Paginate(ordered, page, pageSize)[i])
  {
    var items := Paginate(ordered, page, pageSize);
    HotelPage(seq(|items|, i requires 0 <= i < |items| => Summarize(items[i])),
              MakePagination(|ordered|, page, pageSize))
  }

  /** `d` is the summary of some hotel of `ordered`. */
  ghost predicate SummaryOfSome(ordered: seq<Hotel>, d: HotelSummary)
  {
    exists h :: h in ordered && d == Summarize(h)
  }

  /** Entry `i` of a page is the summary of an item of the list. */
  lemma ListPageEntry(ordered: seq<Hotel>, page: int, pageSize: int, i: int)
    requires pageSize >= 1
    requires 0 <= i < |ListPage(ordered, page, pageSize).data|
    ensures SummaryOfSome(ordered, ListPage(ordered, page, pageSize).data[i])
  {
    var items := Paginate(ordered, page, pageSize);
    var start := PageStart(page, pageSize);
    var a, b := Clamp(start, |ordered|), Clamp(start + pageSize, |ordered|);
    assert items == ordered[a..b];
    var h := ordered[a + i];
    assert items[i] == h;
    assert ListPage(ordered, page, pageSize).data[i] == Summarize(h);
  }

  /** A page holds at most `pageSize` entries, each the summary of an item
      of the list. */
  lemma ListPageFrom(ordered: seq<Hotel>, page: int, pageSize: int)
    requires pageSize >= 1
    ensures |ListPage(ordered, page, pageSize).data| <= pageSize
    ensures forall i :: 0 <= i < |ListPage(ordered, page, pageSize).data| ==>
              SummaryOfSome(ordered, ListPage(ordered, page, pageSize).data[i])
  {
    PaginateSpec(ordered, page, pageSize);
    forall i | 0 <= i < |ListPage(ordered, page, pageSize).data|
      ensures SummaryOfSome(ordered, ListPage(ordered, page, pageSize).data[i])
    {
      ListPageEntry(ordered, page, pageSize, i);
    }
  }

  /** For page 1 onwards a page holds `pageSize` items, fewer on the last
      page, none past it. */
  lemma ListPageLength(ordered: seq<Hotel>, page: int, pageSize: int)
    requires pageSize >= 1 && page >= 1
    ensures |ListPage(ordered, page, pageSize).data| == PageLength(|ordered|, PageStart(page, pageSize), pageSize)
  {
    PaginateSpec(ordered, page, pageSize);
  }

  /** For page 1 onwards entry `i` of a page summarizes item
      `PageStart(page, pageSize) + i` of the list. */
  lemma ListPageAt(ordered: seq<Hotel>, page: int, pageSize: int, i: int)
    requires pageSize >= 1 && page >= 1
    requires 0 <= i < |ListPage(ordered, page, pageSize).data|
    ensures 0 <= PageStart(page, pageSize) + i < |ordered|
    ensures ListPage(ordered, page, pageSize).data[i] == Summarize(ordered[PageStart(page, pageSize) + i])
  {
    PaginateAt(ordered, page, pageSize, i);
  }

  /** For page 1 onwards the page is the run of the list from the page's
      start. */
  lemma ListPageRun(ordered: seq<Hotel>, page: int, pageSize: int)
    requires pageSize >= 1 && page >= 1
    ensures |ListPage(ordered, page, pageSize).data| > 0 ==>
              PageStart(page, pageSize) + |ListPage(ordered, page, pageSize).data| <= |ordered|
    ensures forall i :: 0 <= i < |ListPage(ordered, page, pageSize).data| ==>
              ListPage(ordered, page, pageSize).data[i] == Summarize(ordered[PageStart(page, pageSize) + i])
  {
    var data := ListPage(ordered, page, pageSize).data;
    if |data| > 0 {
      ListPageAt(ordered, page, pageSize, |data| - 1);
    }
    forall i | 0 <= i < |data|
      ensures data[i] == Summarize(ordered[PageStart(page, pageSize) + i])
    {
      ListPageAt(ordered, page, pageSize, i);
    }
  }

  /** `GET /hotels`: filter, sort, cut out the page, summarize. */
  function ListHotels(hs: seq<Hotel>, q: ListQuery): (r: HotelPage)
    requires q.pageSize >= 1
    ensures r.pagination == MakePagination(|Filtered(hs, q)|, q.page, q.pageSize)
    ensures |r.data| == |Paginate(Ordered(hs, q), q.page, q.pageSize)|
    ensures forall i :: 0 <= i < |r.data| ==>
              r.data[i] == Summarize(Paginate(Ordered(hs, q), q.page, q.pageSize)[i])
  {
    ListPage(Ordered(hs, q), q.page, q.pageSize)
  }

  /** A page holds at most `pageSize` hotels, every one of them a public
      hotel of the store that matches the query. */
  lemma ListHotelsShowsMatches(hs: seq<Hotel>, q: ListQuery)
    requires q.pageSize >= 1
    ensures |ListHotels(hs, q).data| <= q.pageSize
    ensures forall i :: 0 <= i < |ListHotels(hs, q).data| ==>
              exists h :: h in hs && MatchesQuery(h, q) && ListHotels(hs, q).data[i] == Summarize(h)
  {
    var ordered := Ordered(hs, q);
    ListPageFrom(ordered, q.page, q.pageSize);
    OrderedMatches(hs, q);
    var r := ListHotels(hs, q);
    assert r == ListPage(ordered, q.page, q.pageSize);
    forall i | 0 <= i < |r.data|
      ensures exists h :: h in hs && MatchesQuery(h, q) && r.data[i] == Summarize(h)
    {
      var h :| h in ordered && r.data[i] == Summarize(h);
    }
  }

  /** The ordered hotels are stored hotels that match the query. */
  lemma OrderedMatches(hs: seq<Hotel>, q: ListQuery)
    ensures forall h :: h in Ordered(hs, q) ==> h in hs && MatchesQuery(h, q)
  {
    var filtered := Filtered(hs, q);
    FilteredSpec(hs, q);
    SortHotelsSpec(filtered, q.sortBy);
    forall h | h in Ordered(hs, q) ensures h in hs && MatchesQuery(h, q) {
      assert h in multiset(Ordered(hs, q));
      assert h in multiset(filtered);
      var k :| 0 <= k < |filtered| && filtered[k] == h;
    }
  }

  /** How many items the page starting at position `start` holds when
      `total` items are split into pages of `size`. */
  function PageLength(total: nat, start: int, size: nat): nat
  {
    if start >= total then 0
    else if total - start < size then total - start
    else size
  }

  /** For page 1 onwards the page holds `pageSize` hotels, fewer on the last
      page, none past it. */
  lemma ListHotelsPageLength(hs: seq<Hotel>, q: ListQuery)
    requires q.pageSize >= 1 && q.page >= 1
    ensures |ListHotels(hs, q).data| == PageLength(|Filtered(hs, q)|, PageStart(q.page, q.pageSize), q.pageSize)
  {
    ListPageLength(Ordered(hs, q), q.page, q.pageSize);
  }

  /** For page 1 onwards the page is the run of the ordered hotels starting
      at the page's start. */
  lemma ListHotelsPage(hs: seq<Hotel>, q: ListQuery)
    requires q.pageSize >= 1 && q.page >= 1
    ensures |ListHotels(hs, q).data| > 0 ==>
              PageStart(q.page, q.pageSize) + |ListHotels(hs, q).data| <= |Filtered(hs, q)|
    ensures forall i :: 0 <= i < |ListHotels(hs, q).data| ==>
              ListHotels(hs, q).data[i] == Summarize(Ordered(hs, q)[PageStart(q.page, q.pageSize) + i])
  {
    ListPageRun(Ordered(hs, q), q.page, q.pageSize);
    assert ListHotels(hs, q) == ListPage(Ordered(hs, q), q.page, q.pageSize);
  }

  /** The page number plays no part in which hotels are listed or in what
      order. */
  lemma OrderedIgnoresPage(hs: seq<Hotel>, q: ListQuery, page: int)
    ensures Filtered(hs, q.(page := page)) == Filtered(hs, q)
    ensures Ordered(hs, q.(page := page)) == Ordered(hs, q)
  {
    assert Filtered(hs, q.(page := page)) == Filtered(hs, q);
  }

  /** Position `i` lies on page `i / size + 1`, at offset `i % size`, inside
      that page's run. */
  lemma PageOfPosition(total: nat, size: int, i: nat)
    requires size >= 1 && i < total
    ensures i / size + 1 >= 1 && 0 <= i % size
    ensures PageStart(i / size + 1, size) + i % size == i
    ensures i % size < PageLength(total, PageStart(i / size + 1, size), size)
  {
    PageStartIsProduct(i / size + 1, size);
  }

  /** An offset on a page that falls inside the list is an entry of the
      page. */
  lemma ListPageHolds(ordered: seq<Hotel>, size: int, page: int, offset: int)
    requires size >= 1 && page >= 1 && 0 <= offset
    requires offset < PageLength(|ordered|, PageStart(page, size), size)
    ensures offset < |ListPage(ordered, page, size).data|
    ensures ListPage(ordered, page, size).data[offset] == Summarize(ordered[PageStart(page, size) + offset])
  {
    ListPageLength(ordered, page, size);
    ListPageAt(ordered, page, size, offset);
  }

  /** Item `i` of a list is entry `i % size` of page `i / size + 1`. */
  lemma ListPageCovers(ordered: seq<Hotel>, size: int, i: nat)
    requires size >= 1 && i < |ordered|
    ensures i % size < |ListPage(ordered, i / size + 1, size).data|
    ensures ListPage(ordered, i / size + 1, size).data[i % size] == Summarize(ordered[i])
  {
    PageOfPosition(|ordered|, size, i);
    ListPageHolds(ordered, size, i / size + 1, i % size);
  }

  /** Every hotel the filters keep is shown on exactly the page its position
      calls for: position `i` of the ordered hotels is item `i % pageSize` of
      page `i / pageSize + 1`. Since the page number changes neither the
      filtering nor the order (`OrderedIgnoresPage`), walking the pages shows
      every matching hotel. */
  lemma PagesCover(hs: seq<Hotel>, q: ListQuery, i: nat)
    requires q.pageSize >= 1 && q.page == i / q.pageSize + 1
    requires i < |Filtered(hs, q)|
    ensures i % q.pageSize < |ListHotels(hs, q).data|
    ensures ListHotels(hs, q).data[i % q.pageSize] == Summarize(Ordered(hs, q)[i])
  {
    ListPageCovers(Ordered(hs, q), q.pageSize, i);
    assert ListHotels(hs, q) == ListPage(Ordered(hs, q), q.page, q.pageSize);
  }

  // ---------------------------------------------------------------------------
  // GET /hotels/recommended

  /** The card shown on the home page: a subset of the fields, one image. */
  datatype HotelCard = HotelCard(
    id: int, name: string, nameEn: string, address: string, starRating: int,
    images: seq<string>, minPrice: int, rating: int, reviewCount: int,
    distance: string, facilities: string, description: string, phone: string,
    email: string)

  function Card(h: Hotel): (c: HotelCard)
    ensures c.id == h.id && c.rating == h.rating
    ensures c.images <= h.images && |c.images| == if h.images == [] then 0 else 1
  {
    TakeFront(h.images, 1);
    HotelCard(h.id, h.name, h.nameEn, h.address, h.starRating, Slice(h.images, 0, 1),
              h.minPrice, h.rating, h.reviewCount, h.distance, h.facilities,
              h.description, h.phone, h.email)
  }

  /** The hotels best rated first, as `(a, b) => b.rating - a.rating`
      orders them. */
  function ByRating(hs: seq<Hotel>): (r: seq<Hotel>)
    ensures |r| == |hs| && multiset(r) == multiset(hs)
    ensures forall i :: 0 <= i < |r| ==> r[i] in hs
    ensures forall i, j :: 0 <= i < j < |r| ==> r[i].rating >= r[j].rating
  {
    SortFacts(hs, RatingDescKey);
    var r := SortByKey(hs, RatingDescKey);
    assert forall i, j :: 0 <= i < j < |r| ==> RatingDescKey(r[i]) <= RatingDescKey(r[j]);
    r
  }

  /** A prefix holds no item more often than the whole sequence. */
  lemma PrefixMultiset(s: seq<Hotel>, n: nat)
    requires n <= |s|
    ensures multiset(s[..n]) <= multiset(s)
  {
    assert s == s[..n] + s[n..];
  }

  /** A prefix of the public hotels sorted by rating holds public hotels,
      each no more often than stored, best first. */
  lemma TopPrefix(hs: seq<Hotel>, sorted: seq<Hotel>, n: nat)
    requires n <= |sorted|
    requires multiset(sorted) == multiset(Filter(hs, Visible))
    requires forall i, j :: 0 <= i < j < |sorted| ==> sorted[i].rating >= sorted[j].rating
    ensures forall i :: 0 <= i < |sorted[..n]| ==> sorted[..n][i] in hs && Visible(sorted[..n][i])
    ensures forall i, j :: 0 <= i < j < |sorted[..n]| ==> sorted[..n][i].rating >= sorted[..n][j].rating
    ensures multiset(sorted[..n]) <= multiset(Filter(hs, Visible))
  {
    var visible := Filter(hs, Visible);
    PrefixMultiset(sorted, n);
    forall i | 0 <= i < n ensures sorted[i] in hs && Visible(sorted[i]) {
      assert sorted[i] in multiset(visible);
    }
  }

  /** The six best-rated public hotels, best first. */
  function TopRated(hs: seq<Hotel>): (r: seq<Hotel>)
    ensures |r| == if |Filter(hs, Visible)| < 6 then |Filter(hs, Visible)| else 6
    ensures forall i :: 0 <= i < |r| ==> r[i] in hs && Visible(r[i])
    ensures forall i, j :: 0 <= i < j < |r| ==> r[i].rating >= r[j].rating
    ensures multiset(r) <= multiset(Filter(hs, Visible))
  {
    var sorted := ByRating(Filter(hs, Visible));
    TakeFront(sorted, 6);
    TopPrefix(hs, sorted, if |sorted| < 6 then |sorted| else 6);
    Slice(sorted, 0, 6)
  }

  /** No public hotel left out of the six is rated above the sixth. */
  lemma TopRatedIsTop(hs: seq<Hotel>, h: Hotel)
    requires h in hs && Visible(h) && h !in TopRated(hs)
    ensures |TopRated(hs)| == 6 && h.rating <= TopRated(hs)[5].rating
  {
    var visible := Filter(hs, Visible);
    var sorted := ByRating(visible);
    var r := TopRated(hs);
    TakeFront(sorted, 6);
    assert r == sorted[..|r|];
    var k :| 0 <= k < |hs| && hs[k] == h;
    assert h in visible;
    assert h in multiset(sorted);
    var j :| 0 <= j < |sorted| && sorted[j] == h;
    assert j >= 6;
  }

  /** `GET /hotels/recommended`: the cards of the top-rated hotels, in
      their order. */
  function Recommended(hs: seq<Hotel>): (r: seq<HotelCard>)
    ensures |r| == |TopRated(hs)| && |r| <= 6
    ensures forall i :: 0 <= i < |r| ==> r[i] == Card(TopRated(hs)[i])
    ensures forall i :: 0 <= i < |r| ==> |r[i].images| <= 1
    ensures forall i, j :: 0 <= i < j < |r| ==> r[i].rating >= r[j].rating
    ensures forall i :: 0 <= i < |r| ==> exists h :: h in hs && Visible(h) && r[i] == Card(h)
  {
    var top := TopRated(hs);
    seq(|top|, i requires 0 <= i < |top| => Card(top[i]))
  }

  // ---------------------------------------------------------------------------
  // GET /hotels/search

  datatype SearchItem = SearchItem(
    id: int, name: string, address: string, city: string, starRating: int,
    images: seq<string>, minPrice: int, rating: int)

  function SearchItemOf(h: Hotel): (s: SearchItem)
    ensures s.id == h.id && s.name == h.name && s.address == h.address && s.city == h.city
    ensures s.starRating == h.starRating && s.minPrice == h.minPrice && s.rating == h.rating
    ensures s.images == if h.images == [] then [] else [h.images[0]]
  {
    TakeFront(h.images, 1);
    SearchItem(h.id, h.name, h.address, h.city, h.starRating, Slice(h.images, 0, 1),
               h.minPrice, h.rating)
  }

  /** The search also looks at the city, lower-cased. */
  predicate SearchMatch(h: Hotel, keywordLower: string)
  {
    || Includes(ToLower(h.name), keywordLower)
    || Includes(ToLower(h.address), keywordLower)
    || Includes(ToLower(h.city), keywordLower)
    || (h.nameEn != "" && Includes(ToLower(h.nameEn), keywordLower))
  }

  /** The public hotels the keyword finds, in stored order. */
  function SearchResults(hs: seq<Hotel>, keyword: string): (r: seq<Hotel>)
    ensures forall i :: 0 <= i < |r| ==> r[i] in hs && Visible(r[i]) && SearchMatch(r[i], ToLower(keyword))
    ensures forall i :: 0 <= i < |hs| && Visible(hs[i]) && SearchMatch(hs[i], ToLower(keyword)) ==> hs[i] in r
    ensures SubsequenceOf(r, hs)
  {
    var keywordLower := ToLower(keyword);
    var visible := Filter(hs, Visible);
    var r := Filter(visible, h => SearchMatch(h, keywordLower));
    SubsequenceTrans(r, visible, hs);
    forall i | 0 <= i < |hs| && Visible(hs[i]) && SearchMatch(hs[i], keywordLower) ensures hs[i] in r {
      assert hs[i] in visible;
    }
    r
  }

  /** The search keeps every copy of a public, matching hotel and no copy of
      any other. */
  lemma SearchResultsCount(hs: seq<Hotel>, keyword: string, x: Hotel)
    ensures multiset(SearchResults(hs, keyword))[x] ==
              if Visible(x) && SearchMatch(x, ToLower(keyword)) then multiset(hs)[x] else 0
  {
    var visible := Filter(hs, Visible);
    FilterCount(hs, Visible, x);
    FilterCount(visible, h => SearchMatch(h, ToLower(keyword)), x);
  }

  function SearchHotels(hs: seq<Hotel>, keyword: string): (r: Outcome<seq<SearchItem>>)
    ensures keyword == "" <==> r == Fail(MissingKeyword)
    ensures r.Ok? ==> |r.value| == |SearchResults(hs, keyword)|
    ensures r.Ok? ==> forall i :: 0 <= i < |r.value| ==> r.value[i] == SearchItemOf(SearchResults(hs, keyword)[i])
    ensures r.Ok? ==> forall i :: 0 <= i < |r.value| ==>
              exists h :: h in hs && Visible(h) && SearchMatch(h, ToLower(keyword)) && r.value[i] == SearchItemOf(h)
  {
    if keyword == "" then Fail(MissingKeyword)
    else
      var found := SearchResults(hs, keyword);
      Ok(seq(|found|, i requires 0 <= i < |found| => SearchItemOf(found[i])))
  }

  // ---------------------------------------------------------------------------
  // GET /hotels/:id

  function RoomPriceKey(r: Room): int { r.price }

  /** The full record of a public hotel, its rooms cheapest first by their
      undiscounted price. An unknown id and a hotel that is not public are
      both answered 404. */
  function HotelDetail(hs: seq<Hotel>, id: int): (r: Outcome<Hotel>)
    ensures FindIndex(hs, id) == -1 ==> r == Fail(HotelNotFound)
    ensures FindIndex(hs, id) >= 0 && !Visible(hs[FindIndex(hs, id)]) ==> r == Fail(HotelOffline)
    ensures r.Ok? <==> FindIndex(hs, id) >= 0 && Visible(hs[FindIndex(hs, id)])
    ensures r.Ok? ==>
              var h := hs[FindIndex(hs, id)];
              && FindIndex(hs, id) >= 0 && Visible(h)
              && r.value == h.(rooms := r.value.rooms)
              && multiset(r.value.rooms) == multiset(h.rooms)
              && forall i, j :: 0 <= i < j < |r.value.rooms| ==> r.value.rooms[i].price <= r.value.rooms[j].price
  {
    var k := FindIndex(hs, id);
    if k == -1 then Fail(HotelNotFound)
    else if !Visible(hs[k]) then Fail(HotelOffline)
    else
      var h := hs[k];
      SortFacts(h.rooms, RoomPriceKey);
      var rooms := SortByKey(h.rooms, RoomPriceKey);
      assert forall i, j :: 0 <= i < j < |rooms| ==> RoomPriceKey(rooms[i]) <= RoomPriceKey(rooms[j]);
      Ok(h.(rooms := rooms))
  }

  /** Ties between rooms of the same price keep their stored order. */
  lemma DetailRoomsStable(hs: seq<Hotel>, id: int, price: int)
    requires HotelDetail(hs, id).Ok?
    ensures WithKey(HotelDetail(hs, id).value.rooms, RoomPriceKey, price)
         == WithKey(hs[FindIndex(hs, id)].rooms, RoomPriceKey, price)
  {
    SortStable(hs[FindIndex(hs, id)].rooms, RoomPriceKey, price);
  }

  // ---------------------------------------------------------------------------
  // GET /admin/hotels

  datatype AdminQuery = AdminQuery(page: int, pageSize: int, keyword: string, city: string, status: string)

  /** The administrator sees every status; `status` filters by exact name. */
  predicate AdminMatch(h: Hotel, q: AdminQuery)
  {
    && (q.keyword == "" || KeywordMatch(h, ToLower(q.keyword)))
    && (q.city == "" || CityMatch(h, q.city))
    && (q.status == "" || StatusName(h.status) == q.status)
  }

  function AdminFiltered(hs: seq<Hotel>, q: AdminQuery): seq<Hotel>
  {
    var s1 := ByKeyword(hs, q.keyword);
    var s2 := ByCity(s1, q.city);
    if q.status == "" then s2 else Filter(s2, (h: Hotel) => StatusName(h.status) == q.status)
  }

  /** The administrator's filter keeps exactly the stored hotels that match,
      in stored order. */
  lemma AdminFilteredSpec(hs: seq<Hotel>, q: AdminQuery)
    ensures forall i :: 0 <= i < |AdminFiltered(hs, q)| ==>
              AdminFiltered(hs, q)[i] in hs && AdminMatch(AdminFiltered(hs, q)[i], q)
    ensures forall i :: 0 <= i < |hs| && AdminMatch(hs[i], q) ==> hs[i] in AdminFiltered(hs, q)
    ensures SubsequenceOf(AdminFiltered(hs, q), hs)
  {
    var s1 := ByKeyword(hs, q.keyword);
    var s2 := ByCity(s1, q.city);
    var s3 := AdminFiltered(hs, q);
    SubsequenceRefl(s2);
    SubsequenceTrans(s2, s1, hs);
    SubsequenceTrans(s3, s2, hs);
    forall i | 0 <= i < |hs| && AdminMatch(hs[i], q) ensures hs[i] in s3 {
      assert hs[i] in s1;
      assert hs[i] in s2;
    }
  }

  /** The administrator's filter keeps every copy of a matching hotel and no
      copy of any other. */
  lemma AdminFilteredCount(hs: seq<Hotel>, q: AdminQuery, x: Hotel)
    ensures multiset(AdminFiltered(hs, q))[x] == if AdminMatch(x, q) then multiset(hs)[x] else 0
  {
    var s1 := ByKeyword(hs, q.keyword);
    var s2 := ByCity(s1, q.city);
    ByKeywordCount(hs, q.keyword, x);
    ByCityCount(s1, q.city, x);
    if q.status != "" {
      FilterCount(s2, (h: Hotel) => StatusName(h.status) == q.status, x);
    }
  }

  /** `users.find(u => u.id === id)`. */
  function FindUserById(users: seq<User>, id: int): (r: Option<User>)
    ensures r.None? <==> forall k :: 0 <= k < |users| ==> users[k].id != id
    ensures r.Some? ==> r.value in users && r.value.id == id
  {
    if users == [] then None
    else if users[0].id == id then Some(users[0])
    else FindUserById(users[1..], id)
  }

  /** The owner's display name: the name of the user whose id equals the
      hotel's merchant id, else a fixed name for the two seed merchants, else
      the word for "merchant" followed by the number. */
  function MerchantName(users: seq<User>, merchantId: int): string
  {
    match FindUserById(users, merchantId)
    case Some(u) => u.name
    case None =>
      if merchantId == 1001 then "上海外滩酒店管理有限公司"
      else if merchantId == 1002 then "北京王府井酒店管理有限公司"
      else "商户" + IntToString(merchantId)
  }

  datatype AdminRow = AdminRow(
    id: int, merchantName: string, name: string, city: string, stars: int,
    price: int, status: string, createdAt: string)

  function AdminRowOf(users: seq<User>, h: Hotel): (a: AdminRow)
    ensures a.id == h.id && a.stars == h.starRating && a.price == h.minPrice
    ensures a.status == StatusName(h.status)
  {
    AdminRow(h.id, MerchantName(users, h.merchantId), h.name, h.city, h.starRating,
             h.minPrice, StatusName(h.status), h.createdAt)
  }

  /** A row names the merchant after the user whose id is the hotel's
      merchant id; without such a user, two known merchant ids have fixed
      company names and any other is shown as its number. */
  lemma AdminRowMerchantName(users: seq<User>, h: Hotel)
    ensures (exists k :: 0 <= k < |users| && users[k].id == h.merchantId) ==>
              exists u :: u in users && u.id == h.merchantId && AdminRowOf(users, h).merchantName == u.name
    ensures (forall k :: 0 <= k < |users| ==> users[k].id != h.merchantId) ==>
              && (h.merchantId == 1001 ==> AdminRowOf(users, h).merchantName == "上海外滩酒店管理有限公司")
              && (h.merchantId == 1002 ==> AdminRowOf(users, h).merchantName == "北京王府井酒店管理有限公司")
              && (h.merchantId != 1001 && h.merchantId != 1002 ==>
                    AdminRowOf(users, h).merchantName == "商户" + IntToString(h.merchantId))
  {
  }

  datatype AdminPage = AdminPage(data: seq<AdminRow>, pagination: Pagination)

  /** One page of the administrator's filtered hotels, each shown as its
      row, with the counts of the whole list. */
  function AdminPageOf(users: seq<User>, filtered: seq<Hotel>, page: int, pageSize: int): (r: AdminPage)
    requires pageSize >= 1
    ensures r.pagination == MakePagination(|filtered|, page, pageSize)
    ensures |r.data| == |Paginate(filtered, page, pageSize)|
    ensures forall i :: 0 <= i < |r.data| ==> r.data[i] == AdminRowOf(users, Paginate(filtered, page, pageSize)[i])
  {
    var items := Paginate(filtered, page, pageSize);
    AdminPage(seq(|items|, i requires 0 <= i < |items| => AdminRowOf(users, items[i])),
              MakePagination(|filtered|, page, pageSize))
  }

  /** For page 1 onwards the administrator's page holds `pageSize` rows,
      fewer on the last page, none past it. */
  lemma AdminPageLength(users: seq<User>, filtered: seq<Hotel>, page: int, pageSize: int)
    requires pageSize >= 1 && page >= 1
    ensures |AdminPageOf(users, filtered, page, pageSize).data|
         == PageLength(|filtered|, PageStart(page, pageSize), pageSize)
  {
    PaginateSpec(filtered, page, pageSize);
  }

  /** For page 1 onwards row `i` of a page is the row of item
      `PageStart(page, pageSize) + i` of the list. */
  lemma AdminPageAt(users: seq<User>, filtered: seq<Hotel>, page: int, pageSize: int, i: int)
    requires pageSize >= 1 && page >= 1
    requires 0 <= i < |AdminPageOf(users, filtered, page, pageSize).data|
    ensures 0 <= PageStart(page, pageSize) + i < |filtered|
    ensures AdminPageOf(users, filtered, page, pageSize).data[i]
         == AdminRowOf(users, filtered[PageStart(page, pageSize) + i])
  {
    PaginateAt(filtered, page, pageSize, i);
  }

  /** For page 1 onwards the rows are those of the run of the list from the
      page's start. */
  lemma AdminPageRun(users: seq<User>, filtered: seq<Hotel>, page: int, pageSize: int)
    requires pageSize >= 1 && page >= 1
    ensures |AdminPageOf(users, filtered, page, pageSize).data| > 0 ==>
              PageStart(page, pageSize) + |AdminPageOf(users, filtered, page, pageSize).data| <= |filtered|
    ensures forall i :: 0 <= i < |AdminPageOf(users, filtered, page, pageSize).data| ==>
              AdminPageOf(users, filtered, page, pageSize).data[i]
              == AdminRowOf(users, filtered[PageStart(page, pageSize) + i])
  {
    var data := AdminPageOf(users, filtered, page, pageSize).data;
    if |data| > 0 {
      AdminPageAt(users, filtered, page, pageSize, |data| - 1);
    }
    forall i | 0 <= i < |data|
      ensures data[i] == AdminRowOf(users, filtered[PageStart(page, pageSize) + i])
    {
      AdminPageAt(users, filtered, page, pageSize, i);
    }
  }

  /** `GET /admin/hotels`: filter, cut out the page, make the rows. */
  function AdminHotels(hs: seq<Hotel>, users: seq<User>, q: AdminQuery): (r: AdminPage)
    requires q.pageSize >= 1
    ensures r.pagination == MakePagination(|AdminFiltered(hs, q)|, q.page, q.pageSize)
    ensures |r.data| == |Paginate(AdminFiltered(hs, q), q.page, q.pageSize)|
    ensures forall i :: 0 <= i < |r.data| ==>
              r.data[i] == AdminRowOf(users, Paginate(AdminFiltered(hs, q), q.page, q.pageSize)[i])
  {
    AdminPageOf(users, AdminFiltered(hs, q), q.page, q.pageSize)
  }

  /** The administrator's page holds at most `pageSize` rows, each for a
      stored hotel that matches the query. */
  lemma AdminHotelsShowsMatches(hs: seq<Hotel>, users: seq<User>, q: AdminQuery)
    requires q.pageSize >= 1
    ensures |AdminHotels(hs, users, q).data| <= q.pageSize
    ensures forall i :: 0 <= i < |AdminHotels(hs, users, q).data| ==>
              exists h :: h in hs && AdminMatch(h, q) && AdminHotels(hs, users, q).data[i] == AdminRowOf(users, h)
  {
    var filtered := AdminFiltered(hs, q);
    var page := Paginate(filtered, q.page, q.pageSize);
    var r := AdminHotels(hs, users, q);
    AdminFilteredSpec(hs, q);
    PaginateSpec(filtered, q.page, q.pageSize);
    forall i | 0 <= i < |r.data|
      ensures exists h :: h in hs && AdminMatch(h, q) && r.data[i] == AdminRowOf(users, h)
    {
      var h := page[i];
      assert h in filtered;
      var k :| 0 <= k < |filtered| && filtered[k] == h;
    }
  }

  /** For page 1 onwards the administrator's page holds `pageSize` rows,
      fewer on the last page, none past it. */
  lemma AdminHotelsPageLength(hs: seq<Hotel>, users: seq<User>, q: AdminQuery)
    requires q.pageSize >= 1 && q.page >= 1
    ensures |AdminHotels(hs, users, q).data|
         == PageLength(|AdminFiltered(hs, q)|, PageStart(q.page, q.pageSize), q.pageSize)
  {
    AdminPageLength(users, AdminFiltered(hs, q), q.page, q.pageSize);
  }

  /** For page 1 onwards the administrator's rows are the matching hotels
      from the page's start on, in stored order. */
  lemma AdminHotelsPage(hs: seq<Hotel>, users: seq<User>, q: AdminQuery)
    requires q.pageSize >= 1 && q.page >= 1
    ensures |AdminHotels(hs, users, q).data| > 0 ==>
              PageStart(q.page, q.pageSize) + |AdminHotels(hs, users, q).data| <= |AdminFiltered(hs, q)|
    ensures forall i :: 0 <= i < |AdminHotels(hs, users, q).data| ==>
              AdminHotels(hs, users, q).data[i]
              == AdminRowOf(users, AdminFiltered(hs, q)[PageStart(q.page, q.pageSize) + i])
  {
    AdminPageRun(users, AdminFiltered(hs, q), q.page, q.pageSize);
    assert AdminHotels(hs, users, q) == AdminPageOf(users, AdminFiltered(hs, q), q.page, q.pageSize);
  }

  // ---------------------------------------------------------------------------
  // GET /merchant/hotels

  datatype MerchantRow = MerchantRow(
    id: int, name: string, city: string, stars: int, price: int, status: string, createdAt: string)

  function MerchantRowOf(h: Hotel): (m: MerchantRow)
    ensures m.id == h.id && m.status == StatusName(h.status) && m.price == h.minPrice
  {
    MerchantRow(h.id, h.name, h.city, h.starRating, h.minPrice, StatusName(h.status), h.createdAt)
  }

  /** `hotel.merchant_id === n`. */
  function Owned(n: int): Hotel -> bool
  {
    (h: Hotel) => h.merchantId == n
  }

  /** The merchant's list keeps every copy of each of the merchant's hotels
      and no other hotel. */
  lemma MerchantOwnedCount(hs: seq<Hotel>, n: int, x: Hotel)
    ensures multiset(Filter(hs, Owned(n)))[x] == if x.merchantId == n then multiset(hs)[x] else 0
  {
    FilterCount(hs, Owned(n), x);
  }

  /** A merchant's own hotels, in every status. A missing merchant id is
      refused; one that is not a number owns nothing. */
  function MerchantHotels(hs: seq<Hotel>, merchantId: Param): (r: Outcome<seq<MerchantRow>>)
    ensures merchantId.Absent? <==> r == Fail(MissingMerchantId)
    ensures merchantId.NaN? ==> r == Ok([])
    ensures merchantId.Num? ==>
              && r.Ok?
              && |r.value| == |Filter(hs, Owned(merchantId.n))|
              && (forall i :: 0 <= i < |r.value| ==> r.value[i] == MerchantRowOf(Filter(hs, Owned(merchantId.n))[i]))
              && (forall i :: 0 <= i < |r.value| ==>
                    exists h :: h in hs && h.merchantId == merchantId.n && r.value[i] == MerchantRowOf(h))
              && (forall h :: h in hs && h.merchantId == merchantId.n ==> MerchantRowOf(h) in r.value)
  {
    match merchantId
    case Absent => Fail(MissingMerchantId)
    case NaN => Ok([])
    case Num(n) =>
      var owned := Filter(hs, Owned(n));
      var rows := seq(|owned|, i requires 0 <= i < |owned| => MerchantRowOf(owned[i]));
      assert forall h :: h in hs && h.merchantId == n ==> MerchantRowOf(h) in rows by {
        forall h | h in hs && h.merchantId == n ensures MerchantRowOf(h) in rows {
          var k :| 0 <= k < |hs| && hs[k] == h;
          var j :| 0 <= j < |owned| && owned[j] == h;
          assert rows[j] == MerchantRowOf(h);
        }
      }
      Ok(rows)
  }
}
