/** The customer account service (server/services/user.service.ts):
    registration with unique usernames and emails and a fresh empty cart,
    login, and lookup of active users. No answer ever carries the password:
    the records it builds have no such field. */
module UserService {
  import opened Types
  import opened Datastore

  /** What register and login answer. */
  datatype LoginResult = LoginResult(success: bool, user: Option<UserInfo>, message: Option<string>)

  /** A user as the service shows it: every field but the password. */
  function InfoOf(u: User): (r: UserInfo)
    ensures r.id == u.id && r.username == u.username && r.email == u.email && r.fullName == u.fullName
    ensures r.phone == u.phone && r.address == u.address && r.city == u.city && r.postalCode == u.postalCode
  {
    UserInfo(u.id, u.username, u.email, u.fullName, u.phone, u.address, u.city, u.postalCode)
  }

  // ---------------------------------------------------------------------------
  // Registration
  // ---------------------------------------------------------------------------

  /** Position of the first user, in table order, with this username or this
      email (the findFirst with an OR of user.service.ts lines 26-30). */
  function FirstClash(users: seq<User>, username: string, email: string): (r: Option<nat>)
    ensures r.Some? ==> r.value < |users| && (users[r.value].username == username || users[r.value].email == email)
    ensures r.Some? ==> forall j :: 0 <= j < r.value ==> users[j].username != username && users[j].email != email
    ensures r.None? <==> forall j :: 0 <= j < |users| ==> users[j].username != username && users[j].email != email
  {
    FindFirst(users, (u: User) => u.username == username || u.email == email)
  }

  /** Why registration is refused, if it is: the first clashing user decides,
      by its username when that is the one taken, else by its email. */
  function RegisterRefusal(users: seq<User>, username: string, email: string): (r: Option<string>)
    ensures r.None? <==> forall j :: 0 <= j < |users| ==> users[j].username != username && users[j].email != email
    ensures r == Some("Username already exists") <==>
              FirstClash(users, username, email).Some? && users[FirstClash(users, username, email).value].username == username
    ensures r.Some? ==> r == Some("Username already exists") || r == Some("Email already exists")
  {
    match FirstClash(users, username, email)
    case None => None
    case Some(k) => if users[k].username == username then Some("Username already exists") else Some("Email already exists")
  }

  /** With usernames unique, a taken username is reported as such only when
      no earlier user holds the email: a user whose email is taken by an
      earlier row hears "Email already exists" even if the username is taken
      too. */
  lemma TakenUsernameIsReported(users: seq<User>, nextUserId: nat, username: string, email: string, i: nat)
    requires UsersOk(users, nextUserId)
    requires i < |users| && users[i].username == username
    requires forall j :: 0 <= j < i ==> users[j].email != email
    ensures RegisterRefusal(users, username, email) == Some("Username already exists")
  {
    var k := FirstClash(users, username, email).value;
    assert k <= i;
    assert k == i;
  }

  /** The row registration adds: the hashed password, no address yet, active. */
  function NewUser(id: nat, username: string, passwordHash: string, email: string, fullName: string,
                   phone: Option<string>): (u: User)
    ensures u.id == id && u.username == username && u.email == email && u.password == passwordHash
    ensures u.fullName == fullName && u.phone == phone
    ensures u.status == 1 && u.address.None? && u.city.None? && u.postalCode.None?
  {
    User(id, username, passwordHash, email, fullName, phone, None, None, None, 1)
  }

  /** The tables after registering a user: one more user and one more, empty,
      cart owned by that user. */
  ghost function Registered(s: Tables, u: User): Tables
  {
    s.(users := s.users + [u], nextUserId := s.nextUserId + 1,
       carts := s.carts[u.id := s.nextCartId], nextCartId := s.nextCartId + 1)
  }

  /** Registering a user under the next id, with a username and an email no
      user has, keeps every integrity rule: usernames and emails stay
      pairwise distinct, and the new cart id is fresh. */
  lemma RegisterKeepsRules(s: Tables, u: User)
    requires TablesOk(s) && u.id == s.nextUserId
    requires forall j :: 0 <= j < |s.users| ==> s.users[j].username != u.username && s.users[j].email != u.email
    ensures TablesOk(Registered(s, u))
  {
    var t := Registered(s, u);
    assert UsersOk(t.users, t.nextUserId) && UserIds(t.users) == UserIds(s.users) + {u.id} by {
      AppendUserKeepsRules(s.users, s.nextUserId, u);
    }
    assert CartsOk(t.carts, t.users, t.nextCartId) by {
      assert forall v :: v in s.carts ==> s.carts[v] < s.nextCartId;
    }
    assert CartItemsOk(t.cartItems, t.books, t.nextCartId, t.nextCartItemId) by {
      forall x | x in t.cartItems ensures x.cartId < t.nextCartId { }
    }
  }

  /** A user with the next id and credentials no user has keeps the user
      table's rules, and adds its id to the table's ids. */
  lemma AppendUserKeepsRules(users: seq<User>, nextUserId: nat, u: User)
    requires UsersOk(users, nextUserId) && u.id == nextUserId
    requires forall j :: 0 <= j < |users| ==> users[j].username != u.username && users[j].email != u.email
    ensures UsersOk(users + [u], nextUserId + 1)
    ensures UserIds(users + [u]) == UserIds(users) + {u.id}
  {
    var t := users + [u];
    assert u in t;
    forall v | v in t ensures v in users || v == u { }
    forall i, j | 0 <= i < j < |t|
      ensures t[i].id != t[j].id && t[i].username != t[j].username && t[i].email != t[j].email
    {
      if j == |users| {
        assert t[i] == users[i] && users[i] in users;
      } else {
        assert t[i] == users[i] && t[j] == users[j];
      }
    }
  }

  /** Registers a customer (user.service.ts lines 24-66): refused with no
      change when the username or the email is taken; otherwise the user is
      stored with the hashed password, an empty cart is created for them, and
      the answer shows the user without the password. Hashing is a
      parameter. */
  method Register(db: Database, username: string, password: string, email: string, fullName: string,
                  phone: Option<string>, hash: string -> string) returns (r: LoginResult)
    requires db.Valid()
    modifies db
    ensures db.Valid()
    ensures var refusal := RegisterRefusal(old(db.users), username, email);
      && (refusal.Some? ==> r == LoginResult(false, None, refusal) && db.State() == old(db.State()))
      && (refusal.None? ==>
            var u := NewUser(old(db.nextUserId), username, hash(password), email, fullName, phone);
            && db.State() == Registered(old(db.State()), u)
            && r == LoginResult(true, Some(InfoOf(u)), None))
  {
    var refusal := RegisterRefusal(db.users, username, email);
    if refusal.Some? {
      return LoginResult(false, None, refusal);
    }
    ghost var s := db.State();
    var u := NewUser(db.nextUserId, username, hash(password), email, fullName, phone);
    RegisterKeepsRules(s, u);
    db.users := db.users + [u];
    db.nextUserId := db.nextUserId + 1;
    db.carts := db.carts[u.id := db.nextCartId];
    db.nextCartId := db.nextCartId + 1;
    assert db.State() == Registered(s, u);
    r := LoginResult(true, Some(InfoOf(u)), None);
  }

  // ---------------------------------------------------------------------------
  // Login and lookup
  // ---------------------------------------------------------------------------

  /** Position of the user with this username (the key is unique). */
  function FindByUsername(users: seq<User>, username: string): (r: Option<nat>)
    ensures r.Some? ==> r.value < |users| && users[r.value].username == username
    ensures r.None? <==> forall j :: 0 <= j < |users| ==> users[j].username != username
  {
    FindFirst(users, (u: User) => u.username == username)
  }

  /** Customer login (user.service.ts lines 71-102): an unknown username and
      a wrong password get the same message; a disabled account is reported
      before the password is looked at. The password check is a parameter. */
  function Login(users: seq<User>, username: string, password: string, matches: (string, string) -> bool): (r: LoginResult)
    ensures var k := FindByUsername(users, username);
      && (r.success <==> k.Some? && users[k.value].status == 1 && matches(password, users[k.value].password))
      && (r.success ==> r.user == Some(InfoOf(users[k.value])) && r.message.None?)
      && (!r.success ==> r.user.None?)
      && (r.message == Some("Account is disabled") <==> k.Some? && users[k.value].status != 1)
      && (!r.success && r.message != Some("Account is disabled") ==> r.message == Some("Invalid username or password"))
  {
    match FindByUsername(users, username)
    case None => LoginResult(false, None, Some("Invalid username or password"))
    case Some(k) =>
      if users[k].status != 1 then LoginResult(false, None, Some("Account is disabled"))
      else if !matches(password, users[k].password) then LoginResult(false, None, Some("Invalid username or password"))
      else LoginResult(true, Some(InfoOf(users[k])), None)
  }

  /** A wrong password cannot be told apart from an unknown username. */
  lemma WrongPasswordLooksLikeUnknownUser(users: seq<User>, username: string, password: string,
                                          matches: (string, string) -> bool, stranger: string)
    requires FindByUsername(users, stranger).None?
    requires var k := FindByUsername(users, username);
             k.Some? && users[k.value].status == 1 && !matches(password, users[k.value].password)
    ensures Login(users, username, password, matches) == Login(users, stranger, password, matches)
  {
    var k := FindByUsername(users, username).value;
    assert !matches(password, users[k].password);
  }

  /** A disabled account gets the same answer whatever password is tried and
      however passwords are checked. */
  lemma DisabledIgnoresPassword(users: seq<User>, username: string, p1: string, p2: string,
                                m1: (string, string) -> bool, m2: (string, string) -> bool)
    requires var k := FindByUsername(users, username); k.Some? && users[k.value].status != 1
    ensures Login(users, username, p1, m1) == Login(users, username, p2, m2)
  {
    var k := FindByUsername(users, username).value;
    assert users[k].status != 1;
  }

  /** An active user by id (user.service.ts lines 107-124): none for a
      missing or inactive user. */
  function GetUserById(users: seq<User>, id: int): (r: Option<UserInfo>)
    ensures r.Some? <==> exists j :: 0 <= j < |users| && users[j].id == id && users[j].status == 1 &&
                                      forall i :: 0 <= i < j ==> users[i].id != id
    ensures r.Some? ==> exists j :: 0 <= j < |users| && users[j].id == id && users[j].status == 1 &&
                                   r.value == InfoOf(users[j])
  {
    if users == [] then None
    else if users[0].id == id then (if users[0].status == 1 then Some(InfoOf(users[0])) else None)
    else GetUserById(users[1..], id)
  }
}
