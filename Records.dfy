/** The records the back end keeps in memory (hotels with their rooms and
    nearby places, bookings, user accounts), the store that holds the three
    collections, and the outcome of a request handler. */
module Records {
  import opened JsCore

  /** A listing's moderation status; `approved` is the older spelling of
      `published`. */
  datatype Status = Draft | Pending | Published | Approved | Rejected | Offline

  function StatusName(s: Status): (r: string)
    ensures r != ""
  {
    match s
    case Draft => "draft"
    case Pending => "pending"
    case Published => "published"
    case Approved => "approved"
    case Rejected => "rejected"
    case Offline => "offline"
  }

  /** Distinct statuses have distinct names, so comparing names compares
      statuses. */
  lemma StatusNameInjective(a: Status, b: Status)
    ensures StatusName(a) == StatusName(b) <==> a == b
  {
  }

  datatype Room = Room(
    id: int,
    name: string,
    price: int,
    /** `None` when the room has no discount; JavaScript also treats 0 as none */
    discountPrice: Option<int>,
    bedType: string,
    area: int,
    maxGuests: int,
    description: string,
    images: seq<string>)

  /** `room.discount_price || room.price`. */
  function EffectiveRate(r: Room): (rate: int)
    ensures r.discountPrice.Some? && r.discountPrice.value != 0 ==> rate == r.discountPrice.value
    ensures r.discountPrice.None? || r.discountPrice.value == 0 ==> rate == r.price
  {
    if r.discountPrice.Some? && r.discountPrice.value != 0 then r.discountPrice.value else r.price
  }

  datatype NearbyPlace = NearbyPlace(id: int, name: string, kind: string, distance: string)

  datatype Hotel = Hotel(
    id: int,
    name: string,
    /** the English name; "" when the record has none */
    nameEn: string,
    address: string,
    city: string,
    starRating: int,
    images: seq<string>,
    description: string,
    facilities: string,
    phone: string,
    email: string,
    /** the guest rating in tenths (4.9 is 49) */
    rating: int,
    reviewCount: int,
    status: Status,
    merchantId: int,
    createdAt: string,
    updatedAt: string,
    minPrice: int,
    distance: string,
    rooms: seq<Room>,
    /** `None` when the record has no `nearby_places` array */
    nearbyPlaces: Option<seq<NearbyPlace>>)

  /** Only published (or approved) listings are shown to the public. */
  predicate Visible(h: Hotel)
  {
    h.status == Approved || h.status == Published
  }

  function Ids(hs: seq<Hotel>): (r: seq<int>)
    ensures |r| == |hs|
    ensures forall i :: 0 <= i < |hs| ==> r[i] == hs[i].id
  {
    seq(|hs|, i requires 0 <= i < |hs| => hs[i].id)
  }

  ghost predicate UniqueIds(hs: seq<Hotel>)
  {
    forall i, j :: 0 <= i < j < |hs| ==> hs[i].id != hs[j].id
  }

  /** `hotels.findIndex(h => h.id === id)`: the first position holding `id`,
      or -1. */
  function FindIndex(hs: seq<Hotel>, id: int): (r: int)
    ensures -1 <= r < |hs|
    ensures r == -1 <==> forall i :: 0 <= i < |hs| ==> hs[i].id != id
    ensures r >= 0 ==> hs[r].id == id && forall i :: 0 <= i < r ==> hs[i].id != id
  {
    if hs == [] then -1
    else if hs[0].id == id then 0
    else
      var k := FindIndex(hs[1..], id);
      if k == -1 then -1 else k + 1
  }

  /** `hotel.rooms.find(r => r.id === id)`. */
  function FindRoom(rooms: seq<Room>, id: int): (r: Option<Room>)
    ensures r.None? <==> forall k :: 0 <= k < |rooms| ==> rooms[k].id != id
    ensures r.Some? ==> exists k :: 0 <= k < |rooms| && rooms[k] == r.value
                          && r.value.id == id && forall j :: 0 <= j < k ==> rooms[j].id != id
  {
    if rooms == [] then None
    else if rooms[0].id == id then Some(rooms[0])
    else
      var r := FindRoom(rooms[1..], id);
      if r.Some? then
        var k :| 0 <= k < |rooms[1..]| && rooms[1..][k] == r.value && r.value.id == id
                 && forall j :: 0 <= j < k ==> rooms[1..][j].id != id;
        assert rooms[k + 1] == r.value;
        r
      else r
  }

  datatype Guest = Guest(name: string, phone: string)

  datatype Booking = Booking(
    bookingId: string,
    hotelId: int,
    hotelName: string,
    roomId: int,
    roomName: string,
    /** check-in and check-out as day numbers */
    checkin: int,
    checkout: int,
    nights: int,
    guest: Guest,
    totalPrice: int,
    status: string,
    createdAt: string)

  datatype Role = Admin | Merchant

  datatype User = User(
    id: int,
    username: string,
    password: string,
    name: string,
    role: Role,
    merchantId: Option<int>)

  /** Why a handler turned a request down. */
  datatype ApiError =
    | MissingFields       // a required field is absent
    | PasswordTooShort
    | UsernameTaken
    | BadCredentials
    | MissingKeyword
    | MissingMerchantId
    | HotelNotFound
    | HotelOffline        // the hotel exists but is not public
    | RoomNotFound
    | InvalidDates
    | InvalidStatus

  /** The HTTP status each refusal is answered with. */
  function Code(e: ApiError): (c: int)
    ensures c == 400 || c == 401 || c == 404
    ensures c == 401 <==> e == BadCredentials
    ensures c == 404 <==> e in {HotelNotFound, HotelOffline, RoomNotFound}
  {
    match e
    case BadCredentials => 401
    case HotelNotFound => 404
    case HotelOffline => 404
    case RoomNotFound => 404
    case _ => 400
  }

  datatype Outcome<T> = Ok(value: T) | Fail(error: ApiError)

  /** The three collections every handler shares. */
  class Store {
    var hotels: seq<Hotel>
    var bookings: seq<Booking>
    var users: seq<User>

    constructor (hotels: seq<Hotel>, bookings: seq<Booking>, users: seq<User>)
      ensures this.hotels == hotels && this.bookings == bookings && this.users == users
    {
      this.hotels := hotels;
      this.bookings := bookings;
      this.users := users;
    }
  }
}
