/** The handlers of the hotel routes that change the shared store: creating,
    updating, deleting and moderating a listing, and booking a room. Each is a
    decision function on the stored sequences (what the handler answers and
    what the sequence becomes) and a method that applies that decision to the
    store. The clock and the random number behind booking ids and timestamps
    are parameters. */
module Catalogue {
  import opened JsCore
  import opened Records
  import opened HotelQueries

  // ---------------------------------------------------------------------------
  // Request bodies

  /** The body of `POST /hotels` or `PUT /hotels/:id`: `None` for a field the
      body does not carry. */
  datatype HotelBody = HotelBody(
    id: Option<int>,
    name: Option<string>,
    nameEn: Option<string>,
    address: Option<string>,
    city: Option<string>,
    starRating: Option<int>,
    images: Option<seq<string>>,
    description: Option<string>,
    facilities: Option<string>,
    phone: Option<string>,
    email: Option<string>,
    rating: Option<int>,
    reviewCount: Option<int>,
    status: Option<Status>,
    merchantId: Option<int>,
    createdAt: Option<string>,
    updatedAt: Option<string>,
    minPrice: Option<int>,
    distance: Option<string>,
    rooms: Option<seq<Room>>,
    nearbyPlaces: Option<seq<NearbyPlace>>)

  function Pick<T>(field: Option<T>, current: T): T
  {
    if field.Some? then field.value else current
  }

  /** `{ ...h, ...body }`: every field the body carries replaces the record's. */
  function Merge(h: Hotel, b: HotelBody): Hotel
  {
    Hotel(Pick(b.id, h.id), Pick(b.name, h.name), Pick(b.nameEn, h.nameEn),
          Pick(b.address, h.address), Pick(b.city, h.city),
          Pick(b.starRating, h.starRating), Pick(b.images, h.images),
          Pick(b.description, h.description), Pick(b.facilities, h.facilities),
          Pick(b.phone, h.phone), Pick(b.email, h.email), Pick(b.rating, h.rating),
          Pick(b.reviewCount, h.reviewCount), Pick(b.status, h.status),
          Pick(b.merchantId, h.merchantId), Pick(b.createdAt, h.createdAt),
          Pick(b.updatedAt, h.updatedAt), Pick(b.minPrice, h.minPrice),
          Pick(b.distance, h.distance), Pick(b.rooms, h.rooms),
          if b.nearbyPlaces.Some? then b.nearbyPlaces else h.nearbyPlaces)
  }

  /** A fresh record: every field a body leaves out is blank. */
  const Blank := Hotel(0, "", "", "", "", 0, [], "", "", "", "", 0, 0, Pending, 0,
                       "", "", 0, "", [], None)

  /** `name`, `address`, `city` and `star_rating` are all present and truthy. */
  predicate HasRequired(b: HotelBody)
  {
    && b.name.Some? && b.name.value != ""
    && b.address.Some? && b.address.value != ""
    && b.city.Some? && b.city.value != ""
    && b.starRating.Some? && b.starRating.value != 0
  }

  // ---------------------------------------------------------------------------
  // POST /hotels

  /** The record `POST /hotels` appends: the body over a blank record, with
      the next id unless the body brings its own, the status forced to
      pending and both timestamps set to `now`. */
  function NewHotel(hs: seq<Hotel>, b: HotelBody, now: string): (r: Outcome<Hotel>)
    ensures r.Fail? <==> !HasRequired(b)
    ensures r.Fail? ==> r.error == MissingFields
    ensures r.Ok? ==>
              && r.value.status == Pending
              && r.value.createdAt == now && r.value.updatedAt == now
              && r.value.name == b.name.value && r.value.address == b.address.value
              && r.value.city == b.city.value && r.value.starRating == b.starRating.value
    ensures r.Ok? && b.id.Some? ==> r.value.id == b.id.value
    ensures r.Ok? && b.id.None? ==>
              && (forall i :: 0 <= i < |hs| ==> hs[i].id < r.value.id)
              && (hs == [] ==> r.value.id == 1)
              && (hs != [] ==> exists i :: 0 <= i < |hs| && hs[i].id == r.value.id - 1)
    ensures r.Ok? ==>
              r.value == Merge(Blank.(id := r.value.id), b).(status := Pending, createdAt := now, updatedAt := now)
  {
    if !HasRequired(b) then Fail(MissingFields)
    else
      var id := NextId(Ids(hs));
      assert forall i :: 0 <= i < |hs| ==> hs[i].id in Ids(hs);
      assert hs != [] ==> exists i :: 0 <= i < |hs| && hs[i].id == id - 1 by {
        if hs != [] {
          var i :| 0 <= i < |Ids(hs)| && Ids(hs)[i] == id - 1;
        }
      }
      Ok(Merge(Blank.(id := id), b).(status := Pending, createdAt := now, updatedAt := now))
  }

  /** Creating without an explicit id keeps the ids distinct. */
  lemma CreateKeepsIdsUnique(hs: seq<Hotel>, b: HotelBody, now: string)
    requires UniqueIds(hs) && b.id.None? && NewHotel(hs, b, now).Ok?
    ensures UniqueIds(hs + [NewHotel(hs, b, now).value])
  {
    var r := hs + [NewHotel(hs, b, now).value];
    forall i, j | 0 <= i < j < |r| ensures r[i].id != r[j].id {
      if j < |hs| {
        assert r[i] == hs[i] && r[j] == hs[j];
      } else {
        assert r[i] == hs[i];
      }
    }
  }

  /** A new listing waits for moderation: its detail page answers 404 until
      an administrator publishes it. */
  lemma CreatedHotelHidden(hs: seq<Hotel>, b: HotelBody, now: string)
    requires b.id.None? && NewHotel(hs, b, now).Ok?
    ensures HotelDetail(hs + [NewHotel(hs, b, now).value], NewHotel(hs, b, now).value.id)
         == Fail(HotelOffline)
  {
    var h := NewHotel(hs, b, now).value;
    var r := hs + [h];
    var k := FindIndex(r, h.id);
    assert r[|hs|].id == h.id;
    assert forall i :: 0 <= i < |hs| ==> r[i] == hs[i];
    assert k == |hs|;
  }

  method CreateHotel(store: Store, b: HotelBody, now: string) returns (r: Outcome<Hotel>)
    modifies store
    ensures r == NewHotel(old(store.hotels), b, now)
    ensures r.Ok? ==> store.hotels == old(store.hotels) + [r.value]
    ensures r.Fail? ==> store.hotels == old(store.hotels)
    ensures store.bookings == old(store.bookings) && store.users == old(store.users)
  {
    r := NewHotel(store.hotels, b, now);
    if r.Ok? {
      store.hotels := store.hotels + [r.value];
    }
  }

  // ---------------------------------------------------------------------------
  // PUT /hotels/:id

  /** The hotels after `PUT /hotels/:id`: the first record with the id is
      replaced by the body merged over it, keeping the id, back to pending and
      stamped `now`; every other record stays where it was. */
  function UpdatedHotels(hs: seq<Hotel>, id: int, b: HotelBody, now: string): (r: Outcome<seq<Hotel>>)
    ensures r.Fail? <==> forall i :: 0 <= i < |hs| ==> hs[i].id != id
    ensures r.Fail? ==> r.error == HotelNotFound
    ensures r.Ok? ==>
              var k := FindIndex(hs, id);
              && 0 <= k < |hs| && |r.value| == |hs|
              && (forall j :: 0 <= j < |hs| && j != k ==> r.value[j] == hs[j])
              && r.value[k] == Merge(hs[k], b).(id := id, status := Pending, updatedAt := now)
  {
    var k := FindIndex(hs, id);
    if k == -1 then Fail(HotelNotFound)
    else Ok(hs[k := Merge(hs[k], b).(id := id, status := Pending, updatedAt := now)])
  }

  /** An update never changes which ids are stored, or where. */
  lemma UpdateKeepsIds(hs: seq<Hotel>, id: int, b: HotelBody, now: string)
    requires UpdatedHotels(hs, id, b, now).Ok?
    ensures Ids(UpdatedHotels(hs, id, b, now).value) == Ids(hs)
    ensures UniqueIds(hs) ==> UniqueIds(UpdatedHotels(hs, id, b, now).value)
  {
    var r := UpdatedHotels(hs, id, b, now).value;
    var k := FindIndex(hs, id);
    assert forall j :: 0 <= j < |hs| ==> r[j].id == hs[j].id;
  }

  /** An edited listing goes back to moderation: its detail page answers 404. */
  lemma UpdatedHotelHidden(hs: seq<Hotel>, id: int, b: HotelBody, now: string)
    requires UpdatedHotels(hs, id, b, now).Ok?
    ensures HotelDetail(UpdatedHotels(hs, id, b, now).value, id) == Fail(HotelOffline)
  {
    var r := UpdatedHotels(hs, id, b, now).value;
    var k := FindIndex(hs, id);
    assert forall j :: 0 <= j < |hs| ==> r[j].id == hs[j].id;
    assert FindIndex(r, id) == k;
  }

  method UpdateHotel(store: Store, id: int, b: HotelBody, now: string) returns (r: Outcome<Hotel>)
    modifies store
    ensures UpdatedHotels(old(store.hotels), id, b, now).Fail? ==>
              r == Fail(HotelNotFound) && store.hotels == old(store.hotels)
    ensures UpdatedHotels(old(store.hotels), id, b, now).Ok? ==>
              && store.hotels == UpdatedHotels(old(store.hotels), id, b, now).value
              && r == Ok(store.hotels[FindIndex(old(store.hotels), id)])
    ensures store.bookings == old(store.bookings) && store.users == old(store.users)
  {
    var k := FindIndex(store.hotels, id);
    if k == -1 {
      return Fail(HotelNotFound);
    }
    var updated := Merge(store.hotels[k], b).(id := id, status := Pending, updatedAt := now);
    store.hotels := store.hotels[k := updated];
    r := Ok(updated);
  }

  // ---------------------------------------------------------------------------
  // DELETE /hotels/:id

  /** The hotels after `DELETE /hotels/:id`: the first record with the id is
      spliced out and the rest close up in order. */
  function RemainingHotels(hs: seq<Hotel>, id: int): (r: Outcome<seq<Hotel>>)
    ensures r.Fail? <==> forall i :: 0 <= i < |hs| ==> hs[i].id != id
    ensures r.Fail? ==> r.error == HotelNotFound
    ensures r.Ok? ==>
              var k := FindIndex(hs, id);
              && 0 <= k < |hs| && |r.value| == |hs| - 1
              && (forall j :: 0 <= j < k ==> r.value[j] == hs[j])
              && (forall j :: k <= j < |r.value| ==> r.value[j] == hs[j + 1])
  {
    var k := FindIndex(hs, id);
    if k == -1 then Fail(HotelNotFound)
    else Ok(hs[..k] + hs[k + 1..])
  }

  /** Deleting drops exactly one record; with distinct ids the id is gone
      afterwards and the remaining ids stay distinct. */
  lemma DeleteRemovesOne(hs: seq<Hotel>, id: int)
    requires RemainingHotels(hs, id).Ok?
    ensures multiset(RemainingHotels(hs, id).value) + multiset{hs[FindIndex(hs, id)]} == multiset(hs)
    ensures UniqueIds(hs) ==>
              && UniqueIds(RemainingHotels(hs, id).value)
              && forall j :: 0 <= j < |RemainingHotels(hs, id).value| ==> RemainingHotels(hs, id).value[j].id != id
  {
    var k := FindIndex(hs, id);
    var r := RemainingHotels(hs, id).value;
    assert r == hs[..k] + hs[k + 1..];
    assert hs == hs[..k] + [hs[k]] + hs[k + 1..];
    if UniqueIds(hs) {
      forall i, j | 0 <= i < j < |r| ensures r[i].id != r[j].id {
        var i' := if i < k then i else i + 1;
        var j' := if j < k then j else j + 1;
        assert r[i] == hs[i'] && r[j] == hs[j'];
      }
      forall j | 0 <= j < |r| ensures r[j].id != id {
        var j' := if j < k then j else j + 1;
        assert r[j] == hs[j'];
      }
    }
  }

  method DeleteHotel(store: Store, id: int) returns (r: Outcome<()>)
    modifies store
    ensures RemainingHotels(old(store.hotels), id).Fail? ==>
              r == Fail(HotelNotFound) && store.hotels == old(store.hotels)
    ensures RemainingHotels(old(store.hotels), id).Ok? ==>
              r == Ok(()) && store.hotels == RemainingHotels(old(store.hotels), id).value
    ensures store.bookings == old(store.bookings) && store.users == old(store.users)
  {
    var k := FindIndex(store.hotels, id);
    if k == -1 {
      return Fail(HotelNotFound);
    }
    store.hotels := store.hotels[..k] + store.hotels[k + 1..];
    r := Ok(());
  }

  // ---------------------------------------------------------------------------
  // PUT /admin/hotels/:id/status

  /** The two verdicts an administrator may give. */
  function Verdict(status: string): (r: Option<Status>)
    ensures r.Some? <==> status == "published" || status == "rejected"
    ensures r.Some? ==> StatusName(r.value) == status
  {
    if status == "published" then Some(Published)
    else if status == "rejected" then Some(Rejected)
    else None
  }

  /** The hotels after moderation: the verdict is checked before the lookup;
      then only the status and `updated_at` of the first record with the id
      change, whatever its status was. */
  function ModeratedHotels(hs: seq<Hotel>, id: int, status: string, now: string): (r: Outcome<seq<Hotel>>)
    ensures Verdict(status).None? ==> r == Fail(InvalidStatus)
    ensures Verdict(status).Some? && (forall i :: 0 <= i < |hs| ==> hs[i].id != id) ==>
              r == Fail(HotelNotFound)
    ensures r.Ok? ==>
              var k := FindIndex(hs, id);
              && Verdict(status).Some? && 0 <= k < |hs| && |r.value| == |hs|
              && (forall j :: 0 <= j < |hs| && j != k ==> r.value[j] == hs[j])
              && r.value[k] == hs[k].(status := Verdict(status).value, updatedAt := now)
    ensures r.Ok? <==> Verdict(status).Some? && exists i :: 0 <= i < |hs| && hs[i].id == id
  {
    match Verdict(status)
    case None => Fail(InvalidStatus)
    case Some(s) =>
      var k := FindIndex(hs, id);
      if k == -1 then Fail(HotelNotFound)
      else Ok(hs[k := hs[k].(status := s, updatedAt := now)])
  }

  /** Publishing puts the listing on its detail page; rejecting takes it off. */
  lemma ModerationDecidesVisibility(hs: seq<Hotel>, id: int, status: string, now: string)
    requires ModeratedHotels(hs, id, status, now).Ok?
    ensures status == "published" ==> HotelDetail(ModeratedHotels(hs, id, status, now).value, id).Ok?
    ensures status == "rejected" ==>
              HotelDetail(ModeratedHotels(hs, id, status, now).value, id) == Fail(HotelOffline)
  {
    var r := ModeratedHotels(hs, id, status, now).value;
    var k := FindIndex(hs, id);
    assert forall j :: 0 <= j < |hs| ==> r[j].id == hs[j].id;
    assert FindIndex(r, id) == k;
  }

  method SetStatus(store: Store, id: int, status: string, now: string) returns (r: Outcome<Status>)
    modifies store
    ensures ModeratedHotels(old(store.hotels), id, status, now).Fail? ==>
              && r == Fail(ModeratedHotels(old(store.hotels), id, status, now).error)
              && store.hotels == old(store.hotels)
    ensures ModeratedHotels(old(store.hotels), id, status, now).Ok? ==>
              && r == Ok(Verdict(status).value)
              && store.hotels == ModeratedHotels(old(store.hotels), id, status, now).value
    ensures store.bookings == old(store.bookings) && store.users == old(store.users)
  {
    var verdict := Verdict(status);
    if verdict.None? {
      return Fail(InvalidStatus);
    }
    var k := FindIndex(store.hotels, id);
    if k == -1 {
      return Fail(HotelNotFound);
    }
    store.hotels := store.hotels[k := store.hotels[k].(status := verdict.value, updatedAt := now)];
    r := Ok(verdict.value);
  }

  // ---------------------------------------------------------------------------
  // POST /bookings

  /** A date field of the booking body: missing (or empty), a calendar day
      given as a day number, or a string `new Date` cannot read. */
  datatype DateArg = NoDate | Day(n: int) | BadDate

  /** The booking body; the two ids are read with `parseInt`. */
  datatype BookingRequest = BookingRequest(
    hotelId: Param,
    roomId: Param,
    checkin: DateArg,
    checkout: DateArg,
    guest: Option<Guest>)

  /** Every field is present and truthy. */
  predicate Complete(req: BookingRequest)
  {
    && !req.hotelId.Absent? && !req.roomId.Absent?
    && !req.checkin.NoDate? && !req.checkout.NoDate?
    && req.guest.Some?
  }

  /** The first hotel whose id equals the parsed id; NaN equals none. */
  function HotelFor(hs: seq<Hotel>, id: Param): (r: Option<Hotel>)
    ensures r.None? <==> !id.Num? || forall i :: 0 <= i < |hs| ==> hs[i].id != id.n
    ensures r.Some? ==> id.Num? && r.value == hs[FindIndex(hs, id.n)]
  {
    if !id.Num? then None
    else
      var k := FindIndex(hs, id.n);
      if k == -1 then None else Some(hs[k])
  }

  /** The first room of the hotel whose id equals the parsed id. */
  function RoomFor(h: Hotel, id: Param): (r: Option<Room>)
    ensures r.None? <==> !id.Num? || forall k :: 0 <= k < |h.rooms| ==> h.rooms[k].id != id.n
    ensures r.Some? ==> id.Num? && r.value == FindRoom(h.rooms, id.n).value
  {
    if id.Num? then FindRoom(h.rooms, id.n) else None
  }

  /** The number of nights between two readable dates; `None` when either
      date cannot be read. */
  function Nights(checkin: DateArg, checkout: DateArg): (r: Option<int>)
    ensures r.Some? <==> checkin.Day? && checkout.Day?
    ensures r.Some? ==> r.value == checkout.n - checkin.n
  {
    if checkin.Day? && checkout.Day? then Some(checkout.n - checkin.n) else None
  }

  /** The booking `POST /bookings` appends, or why it refuses. The checks run
      in order: every field present, the hotel found (whatever its status),
      the room found in that hotel, a readable stay of at least one night. The
      price is the room's effective nightly rate times the nights. */
  function NewBooking(hs: seq<Hotel>, req: BookingRequest, bookingId: string, now: string): (r: Outcome<Booking>)
    ensures !Complete(req) ==> r == Fail(MissingFields)
    ensures Complete(req) && HotelFor(hs, req.hotelId).None? ==> r == Fail(HotelNotFound)
    ensures (Complete(req) && HotelFor(hs, req.hotelId).Some?
             && RoomFor(HotelFor(hs, req.hotelId).value, req.roomId).None?) ==> r == Fail(RoomNotFound)
    ensures r.Fail? && r.error == InvalidDates ==>
              Nights(req.checkin, req.checkout).None? || Nights(req.checkin, req.checkout).value <= 0
    ensures r.Ok? <==>
              && Complete(req) && HotelFor(hs, req.hotelId).Some?
              && RoomFor(HotelFor(hs, req.hotelId).value, req.roomId).Some?
              && Nights(req.checkin, req.checkout).Some? && Nights(req.checkin, req.checkout).value > 0
    ensures r.Ok? ==>
              var h := HotelFor(hs, req.hotelId).value;
              var room := RoomFor(h, req.roomId).value;
              var nights := Nights(req.checkin, req.checkout).value;
              && r.value.bookingId == bookingId
              && r.value.hotelId == h.id && r.value.hotelName == h.name
              && r.value.roomId == room.id && r.value.roomName == room.name
              && r.value.checkin == req.checkin.n && r.value.checkout == req.checkout.n
              && r.value.nights == nights && nights > 0
              && r.value.guest == req.guest.value
              && r.value.totalPrice == EffectiveRate(room) * nights
              && r.value.status == "confirmed" && r.value.createdAt == now
  {
    if !Complete(req) then Fail(MissingFields)
    else match HotelFor(hs, req.hotelId)
      case None => Fail(HotelNotFound)
      case Some(h) =>
        match RoomFor(h, req.roomId)
        case None => Fail(RoomNotFound)
        case Some(room) =>
          match Nights(req.checkin, req.checkout)
          case None => Fail(InvalidDates)
          case Some(nights) =>
            if nights <= 0 then Fail(InvalidDates)
            else
              assert FindRoom(h.rooms, req.roomId.n).value.id == req.roomId.n;
              Ok(Booking(bookingId, req.hotelId.n, h.name, req.roomId.n, room.name,
                         req.checkin.n, req.checkout.n, nights, req.guest.value,
                         EffectiveRate(room) * nights, "confirmed", now))
  }

  /** `generateBookingId`: `BK`, the year, the month and day padded to two
      digits, and a random number below 10000 padded to four. */
  function BookingId(year: nat, month: nat, day: nat, random: nat): (id: string)
    requires 1 <= month <= 12 && 1 <= day <= 31 && random < 10000
    ensures |id| >= 11 && id[..2] == "BK"
  {
    "BK" + Digits(year) + PadStart(Digits(month), 2) + PadStart(Digits(day), 2)
         + PadStart(Digits(random), 4)
  }

  /** For a four-digit year the id is fourteen characters, and the date and
      the random suffix read back from their fixed positions. */
  lemma BookingIdDecodes(year: nat, month: nat, day: nat, random: nat)
    requires 1000 <= year <= 9999 && 1 <= month <= 12 && 1 <= day <= 31 && random < 10000
    ensures var id := BookingId(year, month, day, random);
            && |id| == 14
            && (forall k :: 2 <= k < 14 ==> IsDigit(id[k]))
            && ReadDigits(id[2..6]) == year
            && ReadDigits(id[6..8]) == month
            && ReadDigits(id[8..10]) == day
            && ReadDigits(id[10..14]) == random
  {
    var y, m, d, n := Digits(year), PadStart(Digits(month), 2), PadStart(Digits(day), 2), PadStart(Digits(random), 4);
    assert |y| == 4 by {
      DigitsLength(year, 4);
      DigitsLengthBelow(year, 3);
    }
    DigitsLength(month, 2);
    DigitsLength(day, 2);
    DigitsLength(random, 4);
    ReadDigitsOfDigits(year);
    PaddedRoundTrip(month, 2);
    PaddedRoundTrip(day, 2);
    PaddedRoundTrip(random, 4);
    IdFields(y, m, d, n);
  }

  /** The id's fields sit at fixed positions once their widths are fixed. */
  lemma IdFields(y: string, m: string, d: string, n: string)
    requires |y| == 4 && |m| == 2 && |d| == 2 && |n| == 4
    requires forall k :: 0 <= k < 4 ==> IsDigit(y[k]) && IsDigit(n[k])
    requires forall k :: 0 <= k < 2 ==> IsDigit(m[k]) && IsDigit(d[k])
    ensures var id := "BK" + y + m + d + n;
            && |id| == 14
            && (forall k :: 2 <= k < 14 ==> IsDigit(id[k]))
            && id[2..6] == y && id[6..8] == m && id[8..10] == d && id[10..14] == n
  {
    var id := "BK" + y + m + d + n;
    forall k | 2 <= k < 14 ensures IsDigit(id[k]) {
      if k < 6 {
        assert id[k] == y[k - 2];
      } else if k < 8 {
        assert id[k] == m[k - 6];
      } else if k < 10 {
        assert id[k] == d[k - 8];
      } else {
        assert id[k] == n[k - 10];
      }
    }
    assert id[2..6] == y && id[6..8] == m && id[8..10] == d && id[10..14] == n;
  }

  /** Two bookings made on the same day get the same id exactly when they
      drew the same random number. */
  lemma BookingIdCollides(year: nat, month: nat, day: nat, r1: nat, r2: nat)
    requires 1000 <= year <= 9999 && 1 <= month <= 12 && 1 <= day <= 31 && r1 < 10000 && r2 < 10000
    ensures BookingId(year, month, day, r1) == BookingId(year, month, day, r2) <==> r1 == r2
  {
    BookingIdDecodes(year, month, day, r1);
    BookingIdDecodes(year, month, day, r2);
  }

  /** What the client is told about a confirmed booking. */
  datatype Confirmation = Confirmation(bookingId: string, status: string, totalPrice: int, createdAt: string)

  method Book(store: Store, req: BookingRequest, year: nat, month: nat, day: nat, random: nat, now: string)
    returns (r: Outcome<Confirmation>)
    requires 1 <= month <= 12 && 1 <= day <= 31 && random < 10000
    modifies store
    ensures var b := NewBooking(old(store.hotels), req, BookingId(year, month, day, random), now);
            && (b.Fail? ==> r == Fail(b.error) && store.bookings == old(store.bookings))
            && (b.Ok? ==>
                  && store.bookings == old(store.bookings) + [b.value]
                  && r == Ok(Confirmation(b.value.bookingId, "confirmed", b.value.totalPrice, now)))
    ensures store.hotels == old(store.hotels) && store.users == old(store.users)
  {
    var b := NewBooking(store.hotels, req, BookingId(year, month, day, random), now);
    if b.Fail? {
      return Fail(b.error);
    }
    store.bookings := store.bookings + [b.value];
    r := Ok(Confirmation(b.value.bookingId, b.value.status, b.value.totalPrice, b.value.createdAt));
  }

  // ---------------------------------------------------------------------------
  // The night count as the handler computes it

  /** A JavaScript number as far as the night count needs one. */
  datatype Number = Finite(v: int) | NotANumber

  /** `Math.ceil((new Date(checkout) - new Date(checkin)) / 86400000)`: an
      unreadable date is an invalid `Date`, and the difference is NaN. */
  function DaysAsWritten(checkin: DateArg, checkout: DateArg): (d: Number)
    requires !checkin.NoDate? && !checkout.NoDate?
    ensures d.Finite? <==> checkin.Day? && checkout.Day?
    ensures d.Finite? ==> Nights(checkin, checkout) == Some(d.v)
  {
    if checkin.Day? && checkout.Day? then Finite(checkout.n - checkin.n) else NotANumber
  }

  /** `days <= 0`, which is false for NaN. */
  predicate RejectedAsWritten(d: Number)
  {
    d.Finite? && d.v <= 0
  }

  /** `price * days`. */
  function TotalAsWritten(rate: int, d: Number): (t: Number)
    ensures t.NotANumber? <==> d.NotANumber?
  {
    if d.Finite? then Finite(rate * d.v) else NotANumber
  }

  /** As written, a check-in or check-out date that cannot be read passes
      the night-count guard, and the booking is stored with a NaN night count
      and a NaN total; `NewBooking` refuses it with 400 instead. */
  lemma UnreadableDatePassesGuard(hs: seq<Hotel>, req: BookingRequest, bookingId: string, now: string, rate: int)
    requires Complete(req) && (req.checkin == BadDate || req.checkout == BadDate)
    ensures !RejectedAsWritten(DaysAsWritten(req.checkin, req.checkout))
    ensures TotalAsWritten(rate, DaysAsWritten(req.checkin, req.checkout)) == NotANumber
    ensures NewBooking(hs, req, bookingId, now).Fail?
    ensures HotelFor(hs, req.hotelId).Some? && RoomFor(HotelFor(hs, req.hotelId).value, req.roomId).Some? ==>
              NewBooking(hs, req, bookingId, now) == Fail(InvalidDates)
  {
  }
}
