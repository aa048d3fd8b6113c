# Hotel booking platform: catalogue, booking and account logic in Dafny

This project models the logic of a hotel booking platform. Its back end keeps hotels, bookings and users in memory. Guests list, search and book published hotels. Merchants register and submit hotels for review. An administrator moderates those submissions. The guest app keeps a favourites list and a search-state record. The merchant console keeps a local user list and reshapes the administrator's hotel rows.

Modules:

- `JsCore`: the JavaScript built-ins the handlers rely on: `Option`, query numbers after `parseInt` (`Param`), `Array.prototype.slice`, `filter`, `includes`, ASCII `toLowerCase`, `split`/`join` on one character, decimal digits and `padStart`, and `Math.max(...ids) + 1`.
- `Sorting`: a stable sort on an integer key, which stands for `Array.prototype.sort` with a numeric comparator (descending order uses the negated key).
- `Records`: hotels, rooms, bookings, users, the error kinds with their HTTP codes, and the `Store` class holding the three mutable arrays.
- `HotelQueries`: the read-only hotel routes: the public list, recommendations, search, detail, the administrator's list and a merchant's list.
- `Catalogue`: the hotel routes that change state: create, update, delete, moderation and booking, plus the booking number.
- `Auth`: login and registration.
- `Favorites`: the guest's favourites store.
- `SearchStore`: the guest's search-state store.
- `MerchantMock`: the merchant console's built-in users, its stored user list with registration, and its hotel-row mapping.

Each state-changing handler is a method that takes the `Store` (`modifies store`). Its `ensures` ties the new state to a pure decision function, such as `NewHotel`, `UpdatedHotels` or `NewBooking`. The lemmas about those functions carry the properties. Dates are integer day numbers. Ratings are integers in tenths. Clock readings and random numbers are parameters.

## Model

| member | source | states |
|---|---|---|
| JsCore.NextId | backend/routes/auth.js:6-8 | the generated id exceeds every existing id, is 1 for an empty list, and is one more than some existing id |
| JsCore.Slice | backend/routes/hotels.js:114-116 | `slice(start, end)` with JavaScript's clamping of negative and oversized bounds: the clamped range, or empty when it is empty |
| JsCore.ToLower | backend/routes/hotels.js:39 | lower-casing keeps the length and maps each character on its own |
| JsCore.ToLowerIdempotent | backend/routes/hotels.js:39-45 | lower-casing an already lower-cased string changes nothing |
| JsCore.Filter | backend/routes/hotels.js:33-35 | `filter` keeps only elements satisfying the predicate, keeps each such element somewhere, and keeps the original order |
| JsCore.FilterCount | backend/routes/hotels.js:33-35 | `filter` keeps every copy of an element satisfying the predicate and no copy of any other element |
| JsCore.Utf16Length | backend/routes/auth.js:61 | `length` counts UTF-16 code units: between the number of characters and twice it, and equal to it when every character is in the Basic Multilingual Plane |
| JsCore.DigitsInjective | backend/routes/hotels.js:9-13 | different natural numbers have different decimal strings |
| JsCore.SignNotDigit | frontend-merchant/src/utils/mockData.js:53-54 | a negative number's string never equals a natural number's |
| JsCore.IntToStringInjective | frontend-merchant/src/utils/mockData.js:53-54 | `String(a) === String(b)` exactly when `a === b` |
| JsCore.PaddedRoundTrip | backend/routes/hotels.js:9-13 | a zero-padded decimal string is all digits and reads back as the number |
| JsCore.JoinSplit | frontend-merchant/src/utils/mockData.js:28 | joining the pieces of `split(sep)` with `sep` gives back the original string |
| JsCore.SplitHead | frontend-merchant/src/utils/mockData.js:31 | the first piece of `split(sep)` is a prefix of the string, ended by `sep` or by the end of the string |
| Sorting.SortFacts | backend/routes/hotels.js:93-111 | sorting by a key keeps the length and multiset of elements and yields key-sorted output |
| Sorting.SortStable | backend/routes/hotels.js:93-111 | elements with equal keys keep their relative order, as `Array.prototype.sort` guarantees |
| Sorting.SortOfSorted | backend/routes/hotels.js:93-111 | sorting an already sorted sequence leaves it unchanged |
| Records.StatusNameInjective | backend/routes/hotels.js:608 | distinct statuses have distinct names |
| Records.EffectiveRate | backend/routes/hotels.js:323 | the nightly rate is the discount price when it is set and non-zero, and the list price otherwise |
| Records.FindIndex | backend/routes/hotels.js:542 | `findIndex` gives -1 exactly when no hotel has the id, and otherwise the first position holding it |
| Records.FindRoom | backend/routes/hotels.js:302 | `rooms.find` gives nothing exactly when no room has the id, and otherwise the first room holding it |
| Records.Code | backend/routes/hotels.js:241-254 | every refusal is 400, 401 or 404; 401 is a bad login only; 404 is an unknown or hidden hotel or an unknown room |
| HotelQueries.PriceMatchBounds | backend/routes/hotels.js:64-78 | the price filter keeps a hotel iff its minimum price is at or above the lower bound and at or below the upper bound, with an absent bound ignored |
| HotelQueries.ByKeyword | backend/routes/hotels.js:37-47 | the keyword stage keeps only, and every one of, the hotels whose lower-cased name, address or English name contains the lower-cased keyword, in order |
| HotelQueries.ByKeywordCount | backend/routes/hotels.js:37-47 | the keyword stage keeps every copy of a hotel meeting its condition and drops every copy of one that does not |
| HotelQueries.ByCity | backend/routes/hotels.js:49-54 | the city stage keeps only, and every one of, the hotels whose city contains the given text (case-sensitive), in order |
| HotelQueries.ByCityCount | backend/routes/hotels.js:49-54 | the city stage keeps every copy of a hotel meeting its condition and drops every copy of one that does not |
| HotelQueries.ByStars | backend/routes/hotels.js:56-61 | the star stage keeps only, and every one of, the hotels whose star rating equals the parsed number, none when it is NaN, in order |
| HotelQueries.ByStarsCount | backend/routes/hotels.js:56-61 | the star stage keeps every copy of a hotel meeting its condition and drops every copy of one that does not |
| HotelQueries.ByPrice | backend/routes/hotels.js:63-79 | the price stage keeps only, and every one of, the hotels within the inclusive bounds, in order |
| HotelQueries.ByPriceCount | backend/routes/hotels.js:63-79 | the price stage keeps every copy of a hotel meeting its condition and drops every copy of one that does not |
| HotelQueries.ByNearby | backend/routes/hotels.js:81-91 | the nearby stage keeps only, and every one of, the hotels having a nearby-place list with a place of that type, in order |
| HotelQueries.ByNearbyCount | backend/routes/hotels.js:81-91 | the nearby stage keeps every copy of a hotel meeting its condition and drops every copy of one that does not |
| HotelQueries.FilteredSpec | backend/routes/hotels.js:32-91 | the filtered list holds only visible hotels matching every given filter, holds every such stored hotel, and keeps stored order |
| HotelQueries.FilteredCount | backend/routes/hotels.js:32-91 | a hotel stored n times appears n times in the filtered list when it is visible and matches every filter, otherwise not at all |
| HotelQueries.SortHotelsSpec | backend/routes/hotels.js:93-111 | the sort is a permutation; `id` ascends by id, `price_asc`/`price_desc` by minimum price, `rating` descends by rating; ties keep their order; any other key changes nothing |
| HotelQueries.CeilDivSpec | backend/routes/hotels.js:143-145 | `Math.ceil(total / size)` is the least page count whose pages hold every item: one page fewer would not hold them all |
| HotelQueries.PageStartIsProduct | backend/routes/hotels.js:114 | the start of a page, counted out page by page, is `(page - 1) * pageSize` |
| HotelQueries.PaginateSpec | backend/routes/hotels.js:113-116 | a page has at most `pageSize` items and for page >= 1 is exactly the items from `(page-1)*pageSize` up to the end of the page or of the list |
| HotelQueries.PaginateAt | backend/routes/hotels.js:113-116 | item `i` of a page is item `(page-1)*pageSize + i` of the list |
| HotelQueries.MakePagination | backend/routes/hotels.js:139-146 | the pagination block echoes total, page and size, and its page count is `CeilDiv`, the least page count holding every item |
| HotelQueries.Summarize | backend/routes/hotels.js:119-135 | a list entry keeps the hotel's id, name, price and rating and at most its first two images |
| HotelQueries.Ordered | backend/routes/hotels.js:93-111 | sorting keeps the filtered list's length |
| HotelQueries.ListPage | backend/routes/hotels.js:113-146 | the pagination counts the whole ordered list, and entry `i` is the summary of item `i` of the sliced page |
| HotelQueries.ListPageEntry | backend/routes/hotels.js:113-135 | each entry of a page, for any page number, is the summary of some item of the list |
| HotelQueries.ListPageFrom | backend/routes/hotels.js:113-135 | a page holds at most `pageSize` entries, each the summary of some item of the list, for any page number |
| HotelQueries.ListPageLength | backend/routes/hotels.js:113-116 | from page 1 on, a page holds the items left from its start, capped at the page size |
| HotelQueries.ListPageAt | backend/routes/hotels.js:113-135 | from page 1 on, entry `i` lies inside the list and summarises item `(page-1)*pageSize + i` |
| HotelQueries.ListPageRun | backend/routes/hotels.js:113-135 | from page 1 on, the page ends inside the list and is the run of summaries from `(page-1)*pageSize` |
| HotelQueries.ListPageHolds | backend/routes/hotels.js:113-135 | an offset below the page length is an entry of the page, summarising the item at start plus offset |
| HotelQueries.ListPageCovers | backend/routes/hotels.js:113-135 | item `i` of a list is entry `i % size` of page `i / size + 1` |
| HotelQueries.ListHotels | backend/routes/hotels.js:18-147 | `total` is the filtered count, the page count is its ceiling over the size, and each entry is the summary of the matching item of the sorted page |
| HotelQueries.OrderedMatches | backend/routes/hotels.js:32-111 | every hotel of the sorted, filtered list is a stored hotel matching the query |
| HotelQueries.ListHotelsShowsMatches | backend/routes/hotels.js:32-135 | the list shows at most `pageSize` entries and each one summarises a stored visible hotel matching every filter |
| HotelQueries.ListHotelsPageLength | backend/routes/hotels.js:113-116 | a page's length is the number of filtered items left from its start, capped at the page size |
| HotelQueries.ListHotelsPage | backend/routes/hotels.js:113-135 | from page 1 on, the page ends inside the filtered list and entry `i` of page `p` summarises sorted item `(p-1)*size + i` |
| HotelQueries.OrderedIgnoresPage | backend/routes/hotels.js:20-111 | the page number affects neither filtering nor sorting |
| HotelQueries.PageOfPosition | backend/routes/hotels.js:113-116 | position `i` of a list lies at offset `i % size` of page `i / size + 1`, inside that page's length |
| HotelQueries.PagesCover | backend/routes/hotels.js:113-146 | asking for page `i / size + 1` shows sorted hotel `i` at entry `i % size`; with `OrderedIgnoresPage`, walking the pages shows every matching hotel |
| HotelQueries.Card | backend/routes/hotels.js:163-178 | a recommendation card keeps the hotel's id and rating and at most its first image |
| HotelQueries.ByRating | backend/routes/hotels.js:160-161 | the rating sort is a permutation in non-increasing rating order |
| HotelQueries.TopRated | backend/routes/hotels.js:157-162 | the top list has min(6, number of visible hotels) stored visible hotels, in non-increasing rating order, none appearing more often than among the visible hotels |
| HotelQueries.TopPrefix | backend/routes/hotels.js:159-162 | a prefix of the visible hotels sorted by rating holds visible stored hotels, best first, none more often than among the visible hotels |
| HotelQueries.TopRatedIsTop | backend/routes/hotels.js:157-162 | a visible hotel left out of the top list is rated no higher than the sixth entry, and the list is full |
| HotelQueries.Recommended | backend/routes/hotels.js:157-182 | card i is the card of the i-th top-rated hotel, one card per top-rated hotel (at most six), each for a visible hotel, with at most one image, in non-increasing rating order |
| HotelQueries.SearchItemOf | backend/routes/hotels.js:216-225 | a search item keeps the hotel's id, name, address, city, star rating, lowest price and rating, and exactly its first image when it has one |
| HotelQueries.SearchResults | backend/routes/hotels.js:203-213 | search keeps only, and every one of, the visible hotels whose name, address, city or English name contains the keyword without regard to case, in stored order |
| HotelQueries.SearchResultsCount | backend/routes/hotels.js:203-213 | the search keeps every copy of a visible, matching hotel and no copy of any other |
| HotelQueries.SearchHotels | backend/routes/hotels.js:192-226 | an empty keyword is refused, and only an empty keyword; otherwise item i is the search item of the i-th matching visible hotel, so there is one item per result, in stored order |
| HotelQueries.HotelDetail | backend/routes/hotels.js:236-264 | an unknown id gives not found, a hidden hotel gives offline; the answer is a hotel exactly when the id is found and that hotel is visible, and that hotel is returned with its rooms permuted into ascending list price |
| HotelQueries.DetailRoomsStable | backend/routes/hotels.js:257 | rooms of equal price keep their stored order in the detail |
| HotelQueries.AdminFilteredSpec | backend/routes/hotels.js:381-407 | the administrator's filter keeps only, and every one of, the hotels of any status matching keyword, city and exact status, in stored order |
| HotelQueries.AdminFilteredCount | backend/routes/hotels.js:381-407 | the administrator's filter keeps every copy of a matching hotel and no copy of any other |
| HotelQueries.FindUserById | backend/routes/hotels.js:417 | the merchant lookup finds a user with that id exactly when one exists |
| HotelQueries.AdminRowOf | backend/routes/hotels.js:427-436 | a row keeps the hotel's id, stars, price and status name |
| HotelQueries.AdminRowMerchantName | backend/routes/hotels.js:417-420 | the merchant is named after the user whose id is the hotel's merchant id; without one, ids 1001 and 1002 get their company names and any other id `商户` and the number |
| HotelQueries.AdminPageOf | backend/routes/hotels.js:409-446 | the pagination counts the whole filtered list, and row `i` is the row of item `i` of the sliced page |
| HotelQueries.AdminPageLength | backend/routes/hotels.js:409-412 | from page 1 on, a page holds the items left from its start, capped at the page size |
| HotelQueries.AdminPageAt | backend/routes/hotels.js:409-436 | from page 1 on, row `i` lies inside the list and is the row of item `(page-1)*pageSize + i` |
| HotelQueries.AdminPageRun | backend/routes/hotels.js:409-436 | from page 1 on, the page ends inside the list and is the run of rows from `(page-1)*pageSize` |
| HotelQueries.AdminHotels | backend/routes/hotels.js:371-451 | `total` is the administrator's filtered count, the page count its ceiling over the size, and each row is the row of the matching item of the page |
| HotelQueries.AdminHotelsShowsMatches | backend/routes/hotels.js:381-434 | the page shows at most `pageSize` rows, each for a stored hotel matching the filters |
| HotelQueries.AdminHotelsPageLength | backend/routes/hotels.js:409-412 | a page's length is the number of filtered items left from its start, capped at the page size |
| HotelQueries.AdminHotelsPage | backend/routes/hotels.js:409-436 | from page 1 on, the page ends inside the filtered list and row `i` of page `p` is the row of filtered item `(p-1)*size + i` |
| HotelQueries.MerchantRowOf | backend/routes/hotels.js:476-484 | a merchant row keeps the hotel's id, status name and price |
| HotelQueries.MerchantHotels | backend/routes/hotels.js:461-488 | a missing merchant id is refused; a non-numeric one lists nothing; otherwise row i is the row of the i-th stored hotel of that merchant, one row per such hotel in stored order |
| HotelQueries.MerchantOwnedCount | backend/routes/hotels.js:472-474 | the merchant's filter keeps every copy of each of the merchant's hotels and no copy of any other hotel |
| Catalogue.NewHotel | backend/routes/hotels.js:498-524 | creation is refused iff name, address, city or a non-zero star rating is missing; the new hotel is the body over a blank record, pending, stamped now, with the body's id or the next id |
| Catalogue.CreateKeepsIdsUnique | backend/routes/hotels.js:510-524 | creating a hotel with a generated id keeps hotel ids unique |
| Catalogue.CreatedHotelHidden | backend/routes/hotels.js:510-524 | a newly created hotel is not shown to guests until it is moderated |
| Catalogue.UpdatedHotels | backend/routes/hotels.js:539-562 | an unknown id is refused; otherwise only the first hotel with the id changes, to the body over the old record with its id kept and status pending |
| Catalogue.UpdateKeepsIds | backend/routes/hotels.js:551-562 | an update keeps every hotel id, so unique ids stay unique |
| Catalogue.UpdatedHotelHidden | backend/routes/hotels.js:551-562 | an updated hotel is hidden from guests until moderated again |
| Catalogue.RemainingHotels | backend/routes/hotels.js:577-589 | an unknown id is refused; otherwise the first hotel with the id is cut out and the others keep their order |
| Catalogue.DeleteRemovesOne | backend/routes/hotels.js:589 | deletion removes exactly one hotel; with unique ids the id is then gone |
| Catalogue.Verdict | backend/routes/hotels.js:608 | only `published` and `rejected` are accepted verdicts |
| Catalogue.ModeratedHotels | backend/routes/hotels.js:603-628 | a bad verdict is refused before the lookup; an unknown id is refused; otherwise only the target's status and update time change |
| Catalogue.ModerationDecidesVisibility | backend/routes/hotels.js:624-625 | a published hotel is shown in detail and a rejected one is answered offline |
| Catalogue.HotelFor | backend/routes/hotels.js:294 | the booked hotel is the first one with the parsed id; none for NaN or an unknown id |
| Catalogue.RoomFor | backend/routes/hotels.js:302 | the booked room is the first one of that hotel with the parsed id; none for NaN or an unknown id |
| Catalogue.Nights | backend/routes/hotels.js:311-313 | the night count is checkout minus checkin when both dates are readable |
| Catalogue.NewBooking | backend/routes/hotels.js:274-349 | missing field, unknown hotel, unknown room, and unreadable or non-positive nights are refused in that order; a booking carries the hotel, room, dates, guest, status `confirmed` and the effective rate times the nights |
| Catalogue.BookingId | backend/routes/hotels.js:6-15 | a booking number starts with `BK` |
| Catalogue.BookingIdDecodes | backend/routes/hotels.js:6-15 | for a four-digit year the number has 14 characters whose digit fields read back as year, month, day and random suffix |
| Catalogue.BookingIdCollides | backend/routes/hotels.js:11-14 | on the same day two numbers coincide exactly when their random suffixes do |
| Catalogue.DaysAsWritten | backend/routes/hotels.js:311-313 | the night count is a finite number exactly when both dates are readable, and then equals the modelled count |
| Catalogue.TotalAsWritten | backend/routes/hotels.js:323-324 | the total is NaN exactly when the night count is |
| Catalogue.UnreadableDatePassesGuard | backend/routes/hotels.js:310-324 | an unreadable date slips past the night-count guard and gives a NaN total, where the corrected booking refuses it |
| Catalogue.CreateHotel | backend/routes/hotels.js:524 | the store gains the created hotel on success and is unchanged otherwise |
| Catalogue.UpdateHotel | backend/routes/hotels.js:562 | the store's hotels become the updated list on success and are unchanged otherwise |
| Catalogue.DeleteHotel | backend/routes/hotels.js:589 | the store's hotels become the remaining list on success and are unchanged otherwise |
| Catalogue.SetStatus | backend/routes/hotels.js:624-625 | the store's hotels become the moderated list on success and are unchanged otherwise |
| Catalogue.Book | backend/routes/hotels.js:349 | on success exactly one confirmed booking is appended and its number, status, total and time are returned; on every refusal the bookings are unchanged |
| Auth.AccountOf | backend/routes/auth.js:31-38 | the account shown carries id, username, name, role and merchant id, and no password |
| Auth.FindLogin | backend/routes/auth.js:22 | the first user matching both username and password, or -1 when none does |
| Auth.Login | backend/routes/auth.js:11-40 | a missing field is refused before any lookup; a user is let in iff some user matches both fields exactly; otherwise one error covers unknown names and wrong passwords |
| Auth.NewUser | backend/routes/auth.js:50-85 | missing field, password under six UTF-16 code units and taken username are refused in that order; the new user is a merchant with the next id and merchant id 1000 plus the user count |
| Auth.EmojiPasswordAccepted | backend/routes/auth.js:61-66 | three characters beyond U+FFFF are six code units, so they pass the length check |
| Auth.RegisterKeepsUnique | backend/routes/auth.js:68-85 | registration keeps usernames unique and ids unique |
| Auth.RegisterThenLogin | backend/routes/auth.js:76-85 | a newly registered user can log in with the chosen password and is shown as the new account |
| Auth.Register | backend/routes/auth.js:85-95 | the users gain exactly the new user on success and are unchanged on every refusal |
| Favorites.WithoutId | frontend-user/src/store/favoriteStore.ts:26 | removing keeps exactly the entries with other ids, in order |
| Favorites.WithoutAbsentId | frontend-user/src/store/favoriteStore.ts:26 | removing an id no entry has leaves the list as it is |
| Favorites.AddedSpec | frontend-user/src/store/favoriteStore.ts:18-22 | after adding, the hotel is last, no other entry has its id, and the other entries keep their order |
| Favorites.AddKeepsIdsDistinct | frontend-user/src/store/favoriteStore.ts:20 | adding keeps the ids pairwise distinct |
| Favorites.AddIdempotent | frontend-user/src/store/favoriteStore.ts:20 | adding the same hotel twice equals adding it once |
| Favorites.AddThenRemove | frontend-user/src/store/favoriteStore.ts:18-32 | a hotel is a favourite right after it is added and not right after it is removed; other ids are unaffected by an add |
| Favorites.FavoriteStore.constructor | frontend-user/src/store/favoriteStore.ts:16 | the list starts empty |
| Favorites.FavoriteStore.AddFavorite | frontend-user/src/store/favoriteStore.ts:18-22 | the list becomes the added list |
| Favorites.FavoriteStore.RemoveFavorite | frontend-user/src/store/favoriteStore.ts:24-28 | the list loses exactly the entries with the id |
| Favorites.FavoriteStore.IsFavorite | frontend-user/src/store/favoriteStore.ts:30-32 | true iff some entry has the id |
| Favorites.FavoriteStore.ClearFavorites | frontend-user/src/store/favoriteStore.ts:34 | the list becomes empty |
| SearchStore.FiltersCleared | frontend-user/src/store/searchStore.ts:76-86 | clearing empties keyword, city, star, price bounds and nearby type, sorts by id from page 1, and keeps dates, page size and the more-results flag |
| SearchStore.KeepKeywordIsFiltersCleared | frontend-user/src/store/searchStore.ts:92-100 | the keep-keyword reset is the full reset with keyword and city kept |
| SearchStore.SortClearedAfterReset | frontend-user/src/store/searchStore.ts:76-91 | the sort reset touches only sort and page, changes nothing after a full reset, and the full reset is idempotent |
| SearchStore.Store.constructor | frontend-user/src/store/searchStore.ts:44-56 | empty keyword and city, today and tomorrow as dates, no optional filters, default sort, page 1 of size 10, more results expected |
| SearchStore.Store.SetKeyword | frontend-user/src/store/searchStore.ts:58 | sets the keyword and page 1, nothing else |
| SearchStore.Store.SetCity | frontend-user/src/store/searchStore.ts:59 | sets the city and page 1, nothing else |
| SearchStore.Store.SetDates | frontend-user/src/store/searchStore.ts:60-64 | sets both dates and nothing else, the page included |
| SearchStore.Store.SetStarRating | frontend-user/src/store/searchStore.ts:65 | sets the star filter and page 1, nothing else |
| SearchStore.Store.SetPriceRange | frontend-user/src/store/searchStore.ts:66-71 | sets both price bounds and page 1, nothing else |
| SearchStore.Store.SetNearbyType | frontend-user/src/store/searchStore.ts:72 | sets the nearby type and page 1, nothing else |
| SearchStore.Store.SetSortBy | frontend-user/src/store/searchStore.ts:73 | sets the sort and page 1, nothing else |
| SearchStore.Store.SetPage | frontend-user/src/store/searchStore.ts:74 | sets the page and nothing else |
| SearchStore.Store.SetHasMore | frontend-user/src/store/searchStore.ts:75 | sets the more-results flag and nothing else |
| SearchStore.Store.ResetFilters | frontend-user/src/store/searchStore.ts:76-86 | the state becomes the cleared state |
| SearchStore.Store.ResetSort | frontend-user/src/store/searchStore.ts:87-91 | the state becomes the sort-cleared state |
| SearchStore.Store.ResetFiltersKeepKeyword | frontend-user/src/store/searchStore.ts:92-100 | the state becomes the cleared state with keyword and city kept |
| MerchantMock.GetUsers | frontend-merchant/src/utils/mockData.js:44-47 | the built-in three accounts when nothing is saved, the saved list otherwise |
| MerchantMock.NewMockUser | frontend-merchant/src/utils/mockData.js:52-55 | the new account is a merchant with the given name and password, its id is the first clock reading and its merchant id is `M` followed by the second; it repeats the id exactly when both readings agree |
| MerchantMock.UserStorage.RegisterUser | frontend-merchant/src/utils/mockData.js:49-58 | a taken username is refused and nothing is stored; otherwise the stored list is the previous list plus the new account |
| MerchantMock.RegisteredNameTaken | frontend-merchant/src/utils/mockData.js:51-56 | after a registration the name and every earlier name count as taken |
| MerchantMock.FacilitiesOf | frontend-merchant/src/utils/mockData.js:28 | a list of facilities is kept and missing facilities become an empty list |
| MerchantMock.CreatedAtOf | frontend-merchant/src/utils/mockData.js:31 | a non-empty `createdAt` is kept; otherwise there is a date exactly when `created_at` is present |
| MerchantMock.PriceOf | frontend-merchant/src/utils/mockData.js:25 | the price is `price` when non-zero, else `min_price` when non-zero, else 0 |
| MerchantMock.Normalize | frontend-merchant/src/utils/mockData.js:17-32 | the merchant id and name fall back to the numeric merchant id; stars fall back to `star_rating`; price falls back to `min_price` then 0; list facilities and images are kept; missing facilities and non-list images become empty |
| MerchantMock.CreatedAtIsDate | frontend-merchant/src/utils/mockData.js:31 | without `createdAt`, a back-end stamp `date time` becomes its date part |
| MerchantMock.FacilitiesRoundTrip | frontend-merchant/src/utils/mockData.js:28 | a facilities text becomes pieces free of `、` that join back to the text |
| MerchantMock.MapHotels | frontend-merchant/src/utils/mockData.js:17 | every row is mapped in order |

## Left out

- HTTP plumbing: routing, response envelopes, the `debug` block of the administrator's list, console logging and the 500 responses of the `catch` blocks. Handlers return an `Outcome` whose error maps to its status code through `Records.Code`.
- File persistence of the back-end data, browser storage (`localStorage`, the `persist` middleware, JSON parsing) and the `fetch` call of `getHotels`. The stored user list is a field holding `Option<seq<MockUser>>`.
- Clocks and randomness: `new Date()`, `Date.now()` and `Math.random()` are parameters (`now`, `idTime`/`merchantTime`, `year`/`month`/`day`/`random`).
- Catalogue.NewHotel: `created_at` and `updated_at` come from two `new Date()` calls in the source (backend/routes/hotels.js:514, 518) but are both stamped with the one `now`. No property here relies on the two being equal.
- Catalogue.Nights: models dates as integer day numbers, not millisecond timestamps divided by a day and rounded up. A date `new Date` cannot read is `BadDate`.
- HotelQueries.ListHotels: requires `pageSize >= 1`. A zero or non-numeric size makes the source's page count `Infinity` or `NaN`, which are not integers. `page` and `pageSize` are taken already parsed.
- HotelQueries.AdminHotels: requires `pageSize >= 1`, for the same reason.
- Catalogue.BookingId: requires a calendar month and day and a suffix below 10000, which is what the clock and `Math.floor(Math.random() * 10000)` produce.
- Ratings are integers in tenths, not floating-point numbers. `toLowerCase` is ASCII only; other characters are left as they are.
- Absent request fields and JavaScript's other falsy values (`""`, `0`) are one case, `""` for strings and `Absent` for numbers. A non-numeric path id is treated like an id no hotel has.
- JsCore.Filter: its own contract does not say how many copies of an element survive; JsCore.FilterCount states that, pointwise. A quantified multiset clause on `Filter` is carried into every proof that uses a filter and makes those proofs too costly.
- HotelQueries.ByKeyword: copies are stated by HotelQueries.ByKeywordCount, not by its own contract, for the same reason.
- HotelQueries.ByCity: copies are stated by HotelQueries.ByCityCount, not by its own contract, for the same reason.
- HotelQueries.ByStars: copies are stated by HotelQueries.ByStarsCount, not by its own contract, for the same reason.
- HotelQueries.ByPrice: copies are stated by HotelQueries.ByPriceCount, not by its own contract, for the same reason.
- HotelQueries.ByNearby: copies are stated by HotelQueries.ByNearbyCount, not by its own contract, for the same reason.
- HotelQueries.FilteredSpec: copies are stated by HotelQueries.FilteredCount, not by its own contract, for the same reason.
- HotelQueries.AdminFilteredSpec: copies are stated by HotelQueries.AdminFilteredCount, not by its own contract, for the same reason.
- HotelQueries.SearchResults: copies are stated by HotelQueries.SearchResultsCount, not by its own contract, for the same reason.
- Catalogue.NewHotel: body fields the client leaves out take blank defaults instead of being absent from the stored record.
- Catalogue.Merge: a body field given as `undefined` is treated as absent. The source's spread would overwrite the field with `undefined`.
- Booking request fields other than those used are not kept, and the booking's creation time is the `now` parameter.
- The `id` of a created hotel may come from the body, as in the source. Only a generated id is proved fresh.
- HotelQueries.AdminRowOf: looks the merchant up by `merchant_id` against user ids, as written. Users' `merchantId` values are not consulted.
- MerchantMock.Normalize: a `facilities` value that is neither a list nor a string (which would throw in the source) is not modelled. `createdAt` falling back to `created_at` is stated through `CreatedAtIsDate` for stamps of the form `date time`.
- The React pages, layouts, map view, axios interceptors and the authentication context are outside this model.

## Findings

| source | as written | input that shows it | evidently intended | confidence | as-written member | corrected member |
|---|---|---|---|---|---|---|
| backend/routes/hotels.js:311-324 | the night count is `Math.ceil((checkout - checkin) / day)` and only `days <= 0` is refused | `checkin_date: "tomorrow"`: `new Date` gives an invalid date, the difference is `NaN`, `NaN <= 0` is false, and the booking is stored with `nights` and `total_price` `NaN` | a booking whose dates cannot be read is refused with 400 like a non-positive stay | high (not executed) | Catalogue.UnreadableDatePassesGuard | Catalogue.NewBooking |
