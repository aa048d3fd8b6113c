/** The merchant console's local helpers: the built-in accounts, the user
    list kept in browser storage with its duplicate-checked registration, and
    the mapping that turns a hotel row of the administrator's list into the
    console's own record shape. Browser storage is a field holding the saved
    list, or nothing when no list has been saved. */
module MerchantMock {
  import opened JsCore

  /** A console account; merchant ids here are strings such as "M001". */
  datatype MockUser = MockUser(
    id: int, username: string, password: string, role: string, name: string,
    merchantId: Option<string>)

  const MockUsers: seq<MockUser> := [
    MockUser(1, "admin", "123456", "admin", "超级管理员", None),
    MockUser(2, "merchant1", "123456", "merchant", "商户A", Some("M001")),
    MockUser(3, "merchant2", "123456", "merchant", "商户B", Some("M002"))]

  /** `getUsers`: the saved list, or the built-in accounts when nothing has
      been saved. */
  function GetUsers(saved: Option<seq<MockUser>>): (r: seq<MockUser>)
    ensures saved.None? ==> r == MockUsers && |r| == 3 && r[0].role == "admin"
    ensures saved.Some? ==> r == saved.value
  {
    if saved.Some? then saved.value else MockUsers
  }

  predicate Taken(users: seq<MockUser>, username: string)
  {
    exists i :: 0 <= i < |users| && users[i].username == username
  }

  /** The account `registerUser` creates. The source reads the clock twice,
      once for the id and once for the merchant id, so the two readings are
      separate parameters (milliseconds): the merchant id is "M" and the
      second reading, which repeats the id only when both fall in the same
      millisecond. */
  function NewMockUser(username: string, password: string, name: string, idTime: int, merchantTime: int): (u: MockUser)
    ensures u.username == username && u.password == password && u.name == name
    ensures u.role == "merchant" && u.id == idTime
    ensures u.merchantId.Some? && |u.merchantId.value| >= 2
    ensures u.merchantId.value[0] == 'M' && u.merchantId.value[1..] == IntToString(merchantTime)
    ensures u.merchantId.value[1..] == IntToString(u.id) <==> idTime == merchantTime
  {
    IntToStringInjective(idTime, merchantTime);
    MockUser(idTime, username, password, "merchant", name, Some("M" + IntToString(merchantTime)))
  }

  datatype Registration = Registered(user: MockUser) | Duplicate

  class UserStorage {
    var saved: Option<seq<MockUser>>

    constructor (saved: Option<seq<MockUser>>)
      ensures this.saved == saved
    {
      this.saved := saved;
    }

    /** `registerUser`: a taken username is refused and nothing is stored;
        otherwise the current list plus the new account is saved. */
    method RegisterUser(username: string, password: string, name: string, idTime: int, merchantTime: int) returns (r: Registration)
      modifies this
      ensures Taken(GetUsers(old(saved)), username) ==> r == Duplicate && saved == old(saved)
      ensures !Taken(GetUsers(old(saved)), username) ==>
                && r == Registered(NewMockUser(username, password, name, idTime, merchantTime))
                && saved == Some(GetUsers(old(saved)) + [r.user])
    {
      var users := GetUsers(saved);
      if Taken(users, username) {
        return Duplicate;
      }
      var user := NewMockUser(username, password, name, idTime, merchantTime);
      saved := Some(users + [user]);
      r := Registered(user);
    }
  }

  /** Once an account is saved, registering its username again is refused. */
  lemma RegisteredNameTaken(users: seq<MockUser>, username: string, password: string, name: string, idTime: int, merchantTime: int)
    ensures Taken(GetUsers(Some(users + [NewMockUser(username, password, name, idTime, merchantTime)])), username)
    ensures forall n :: Taken(users, n) ==>
              Taken(GetUsers(Some(users + [NewMockUser(username, password, name, idTime, merchantTime)])), n)
  {
    var r := users + [NewMockUser(username, password, name, idTime, merchantTime)];
    assert r[|users|].username == username;
    assert forall i :: 0 <= i < |users| ==> r[i] == users[i];
  }

  // ---------------------------------------------------------------------------
  // The row mapping of `getHotels`

  /** `facilities` as it arrives: already a list, a string of items joined
      by "、", or absent. */
  datatype RawFacilities = FacList(items: seq<string>) | FacText(text: string) | FacAbsent

  /** A row of the administrator's hotel list as the console receives it;
      `None` for an absent field, and both spellings of the fields the
      console reads. */
  datatype RawHotel = RawHotel(
    id: int,
    name: string,
    merchantId: Option<string>,
    merchant_id: Option<int>,
    merchantName: Option<string>,
    address: string,
    city: string,
    stars: Option<int>,
    star_rating: Option<int>,
    price: Option<int>,
    min_price: Option<int>,
    phone: string,
    description: string,
    facilities: RawFacilities,
    images: Option<seq<string>>,
    status: string,
    createdAt: Option<string>,
    created_at: Option<string>)

  /** The console's hotel record. */
  datatype ConsoleHotel = ConsoleHotel(
    id: int,
    name: string,
    merchantId: string,
    merchantName: string,
    address: string,
    city: string,
    stars: Option<int>,
    price: int,
    phone: string,
    description: string,
    facilities: seq<string>,
    images: seq<string>,
    status: string,
    createdAt: Option<string>)

  /** A present string other than "" (JavaScript's truthy strings). */
  predicate TruthyText(s: Option<string>)
  {
    s.Some? && s.value != ""
  }

  /** A present number other than 0. */
  predicate TruthyNumber(n: Option<int>)
  {
    n.Some? && n.value != 0
  }

  /** `String(x)` for a number that may be `undefined`. */
  function NumberText(n: Option<int>): string
  {
    if n.Some? then IntToString(n.value) else "undefined"
  }

  /** The facilities as a list: a text is cut at every "、". */
  function FacilitiesOf(f: RawFacilities): (r: seq<string>)
    ensures f.FacList? ==> r == f.items
    ensures f.FacAbsent? ==> r == []
  {
    match f
    case FacList(items) => items
    case FacText(text) => Split(text, '、')
    case FacAbsent => []
  }

  /** `createdAt || created_at?.split(' ')[0]`. */
  function CreatedAtOf(h: RawHotel): (r: Option<string>)
    ensures TruthyText(h.createdAt) ==> r == h.createdAt
    ensures !TruthyText(h.createdAt) ==> (r.None? <==> h.created_at.None?)
  {
    if TruthyText(h.createdAt) then h.createdAt
    else if h.created_at.Some? then Some(Split(h.created_at.value, ' ')[0])
    else None
  }

  /** `price || min_price || 0`. */
  function PriceOf(h: RawHotel): (p: int)
    ensures TruthyNumber(h.price) ==> p == h.price.value
    ensures !TruthyNumber(h.price) && TruthyNumber(h.min_price) ==> p == h.min_price.value
    ensures !TruthyNumber(h.price) && !TruthyNumber(h.min_price) ==> p == 0
  {
    if TruthyNumber(h.price) then h.price.value else if TruthyNumber(h.min_price) then h.min_price.value else 0
  }

  function Normalize(h: RawHotel): (c: ConsoleHotel)
    ensures c.id == h.id && c.name == h.name && c.status == h.status
    ensures c.merchantId == if TruthyText(h.merchantId) then h.merchantId.value else "M" + NumberText(h.merchant_id)
    ensures c.merchantName == if TruthyText(h.merchantName) then h.merchantName.value else "商户" + NumberText(h.merchant_id)
    ensures TruthyNumber(h.stars) ==> c.stars == h.stars
    ensures !TruthyNumber(h.stars) ==> c.stars == h.star_rating
    ensures TruthyNumber(h.price) ==> c.price == h.price.value
    ensures !TruthyNumber(h.price) && TruthyNumber(h.min_price) ==> c.price == h.min_price.value
    ensures !TruthyNumber(h.price) && !TruthyNumber(h.min_price) ==> c.price == 0
    ensures h.facilities.FacList? ==> c.facilities == h.facilities.items
    ensures h.facilities.FacAbsent? ==> c.facilities == []
    ensures c.images == if h.images.Some? then h.images.value else []
    ensures TruthyText(h.createdAt) ==> c.createdAt == h.createdAt
    ensures !TruthyText(h.createdAt) ==> (c.createdAt.None? <==> h.created_at.None?)
  {
    ConsoleHotel(
      h.id, h.name,
      if TruthyText(h.merchantId) then h.merchantId.value else "M" + NumberText(h.merchant_id),
      if TruthyText(h.merchantName) then h.merchantName.value else "商户" + NumberText(h.merchant_id),
      h.address, h.city,
      if TruthyNumber(h.stars) then h.stars else h.star_rating,
      PriceOf(h), h.phone, h.description, FacilitiesOf(h.facilities),
      if h.images.Some? then h.images.value else [],
      h.status, CreatedAtOf(h))
  }

  /** A back-end timestamp "YYYY-MM-DD hh:mm:ss" is cut to its date. */
  lemma CreatedAtIsDate(h: RawHotel, date: string, time: string)
    requires !TruthyText(h.createdAt) && h.created_at == Some(date + " " + time)
    requires ' ' !in date
    ensures Normalize(h).createdAt == Some(date)
  {
    var s := date + " " + time;
    var piece := Split(s, ' ')[0];
    SplitHead(s, ' ');
    assert s[|date|] == ' ';
    assert piece == s[..|date|] == date;
  }

  /** A facilities text is cut into pieces that join back to it. */
  lemma FacilitiesRoundTrip(h: RawHotel)
    requires h.facilities.FacText?
    ensures |Normalize(h).facilities| >= 1
    ensures forall k :: 0 <= k < |Normalize(h).facilities| ==> '、' !in Normalize(h).facilities[k]
    ensures Join(Normalize(h).facilities, '、') == h.facilities.text
  {
    JoinSplit(h.facilities.text, '、');
  }

  /** `getHotels` maps every row the same way and keeps their order. */
  function MapHotels(rows: seq<RawHotel>): (r: seq<ConsoleHotel>)
    ensures |r| == |rows|
    ensures forall i :: 0 <= i < |rows| ==> r[i] == Normalize(rows[i])
  {
    seq(|rows|, i requires 0 <= i < |rows| => Normalize(rows[i]))
  }
}
