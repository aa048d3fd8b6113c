/** The account routes: logging in with a username and password, and
    registering a new merchant account. Missing body fields arrive as "". */
module Auth {
  import opened JsCore
  import opened Records

  /** What the client is told about an account: never the password. */
  datatype Account = Account(id: int, username: string, name: string, role: Role, merchantId: Option<int>)

  function AccountOf(u: User): (a: Account)
    ensures a.id == u.id && a.username == u.username && a.name == u.name
    ensures a.role == u.role && a.merchantId == u.merchantId
  {
    Account(u.id, u.username, u.name, u.role, u.merchantId)
  }

  /** `users.find(u => u.username === username && u.password === password)`:
      the first position holding both, or -1. */
  function FindLogin(users: seq<User>, username: string, password: string): (r: int)
    ensures -1 <= r < |users|
    ensures r == -1 <==>
              forall i :: 0 <= i < |users| ==> !(users[i].username == username && users[i].password == password)
    ensures r >= 0 ==>
              && users[r].username == username && users[r].password == password
              && forall i :: 0 <= i < r ==> !(users[i].username == username && users[i].password == password)
  {
    if users == [] then -1
    else if users[0].username == username && users[0].password == password then 0
    else
      var k := FindLogin(users[1..], username, password);
      if k == -1 then -1 else k + 1
  }

  /** `POST /auth/login`: both fields are required before any lookup; then
      the first user matching both exactly is let in, and an unknown name
      and a wrong password are refused alike. */
  function Login(users: seq<User>, username: string, password: string): (r: Outcome<Account>)
    ensures username == "" || password == "" <==> r == Fail(MissingFields)
    ensures r.Ok? <==>
              && username != "" && password != ""
              && exists i :: 0 <= i < |users| && users[i].username == username && users[i].password == password
    ensures username != "" && password != "" && r.Fail? ==> r.error == BadCredentials
    ensures r.Ok? ==>
              var k := FindLogin(users, username, password);
              && 0 <= k < |users|
              && users[k].username == username && users[k].password == password
              && r.value == AccountOf(users[k])
  {
    if username == "" || password == "" then Fail(MissingFields)
    else
      var k := FindLogin(users, username, password);
      if k == -1 then Fail(BadCredentials) else Ok(AccountOf(users[k]))
  }

  predicate UsernameTakenIn(users: seq<User>, username: string)
  {
    exists i :: 0 <= i < |users| && users[i].username == username
  }

  ghost predicate UniqueUsernames(users: seq<User>)
  {
    forall i, j :: 0 <= i < j < |users| ==> users[i].username != users[j].username
  }

  /** The user `POST /auth/register` appends, or why it refuses. The checks
      run in order: every field present, a password of at least six UTF-16
      code units, a username nobody has. The new user is a merchant with the
      next id and the merchant number 1000 plus the number of users before
      it. */
  function NewUser(users: seq<User>, username: string, password: string, name: string): (r: Outcome<User>)
    ensures username == "" || password == "" || name == "" <==> r == Fail(MissingFields)
    ensures username != "" && password != "" && name != "" && Utf16Length(password) < 6 ==> r == Fail(PasswordTooShort)
    ensures (username != "" && password != "" && name != "" && Utf16Length(password) >= 6
             && UsernameTakenIn(users, username)) ==> r == Fail(UsernameTaken)
    ensures r.Ok? <==>
              username != "" && password != "" && name != "" && Utf16Length(password) >= 6
              && !UsernameTakenIn(users, username)
    ensures r.Ok? ==>
              && r.value.username == username && r.value.password == password && r.value.name == name
              && r.value.role == Merchant && r.value.merchantId == Some(1000 + |users|)
              && (forall i :: 0 <= i < |users| ==> users[i].id < r.value.id)
              && (users == [] ==> r.value.id == 1)
              && (users != [] ==> exists i :: 0 <= i < |users| && users[i].id == r.value.id - 1)
  {
    if username == "" || password == "" || name == "" then Fail(MissingFields)
    else if Utf16Length(password) < 6 then Fail(PasswordTooShort)
    else if UsernameTakenIn(users, username) then Fail(UsernameTaken)
    else
      var ids := seq(|users|, i requires 0 <= i < |users| => users[i].id);
      var id := NextId(ids);
      forall i | 0 <= i < |users| ensures users[i].id in ids {
        assert ids[i] == users[i].id;
      }
      assert users != [] ==> exists i :: 0 <= i < |users| && users[i].id == id - 1 by {
        if users != [] {
          var i :| 0 <= i < |ids| && ids[i] == id - 1;
        }
      }
      Ok(User(id, username, password, name, Merchant, Some(1000 + |users|)))
  }

  /** Three emoji are six UTF-16 code units, so they make an acceptable
      password. */
  lemma EmojiPasswordAccepted(users: seq<User>)
    requires !UsernameTakenIn(users, "guest")
    ensures NewUser(users, "guest", "\U{1F600}\U{1F600}\U{1F600}", "Guest").Ok?
  {
    assert Utf16Length("\U{1F600}\U{1F600}\U{1F600}") == 6;
  }

  /** Registering keeps usernames distinct, and ids too. */
  lemma RegisterKeepsUnique(users: seq<User>, username: string, password: string, name: string)
    requires NewUser(users, username, password, name).Ok?
    ensures UniqueUsernames(users) ==> UniqueUsernames(users + [NewUser(users, username, password, name).value])
    ensures (forall i, j :: 0 <= i < j < |users| ==> users[i].id != users[j].id) ==>
              var r := users + [NewUser(users, username, password, name).value];
              forall i, j :: 0 <= i < j < |r| ==> r[i].id != r[j].id
  {
    var r := users + [NewUser(users, username, password, name).value];
    assert forall i :: 0 <= i < |users| ==> r[i] == users[i];
  }

  /** A new account can log in straight away with the password it chose, and
      is shown as the merchant it became. */
  lemma RegisterThenLogin(users: seq<User>, username: string, password: string, name: string)
    requires NewUser(users, username, password, name).Ok?
    ensures Login(users + [NewUser(users, username, password, name).value], username, password)
         == Ok(AccountOf(NewUser(users, username, password, name).value))
  {
    var u := NewUser(users, username, password, name).value;
    var r := users + [u];
    assert forall i :: 0 <= i < |users| ==> r[i] == users[i];
    assert r[|users|] == u;
    assert FindLogin(r, username, password) == |users|;
  }

  method Register(store: Store, username: string, password: string, name: string) returns (r: Outcome<Account>)
    modifies store
    ensures var u := NewUser(old(store.users), username, password, name);
            && (u.Fail? ==> r == Fail(u.error) && store.users == old(store.users))
            && (u.Ok? ==> r == Ok(AccountOf(u.value)) && store.users == old(store.users) + [u.value])
    ensures store.hotels == old(store.hotels) && store.bookings == old(store.bookings)
  {
    var u := NewUser(store.users, username, password, name);
    if u.Fail? {
      return Fail(u.error);
    }
    store.users := store.users + [u.value];
    r := Ok(AccountOf(u.value));
  }
}
