/** The administration service (server/services/admin.service.ts): staff
    login with the permissions of their roles, manual stock adjustment with
    its ledger row, the overwriting status updates, and the paging of the
    list screens. */
module AdminService {
  import opened Types
  import opened Datastore
  import opened Response

  // ---------------------------------------------------------------------------
  // Login
  // ---------------------------------------------------------------------------

  /** Position of the administrator with this username (the key is unique). */
  function FindAdmin(admins: seq<Admin>, username: string): (r: Option<nat>)
    ensures r.Some? ==> r.value < |admins| && admins[r.value].username == username
    ensures r.None? <==> forall i :: 0 <= i < |admins| ==> admins[i].username != username
  {
    FindFirst(admins, (a: Admin) => a.username == username)
  }

  /** The permission keys of the roles, role after role, each role's keys in
      order (the flatMap of admin.service.ts lines 46-48). A key is listed
      exactly when some role grants it. */
  function Permissions(roles: seq<Role>): (r: seq<string>)
    ensures forall p :: p in r <==> exists i :: 0 <= i < |roles| && p in roles[i].permissionKeys
  {
    if roles == [] then []
    else
      var r := roles[0].permissionKeys + Permissions(roles[1..]);
      assert forall p :: p in r <==> exists i :: 0 <= i < |roles| && p in roles[i].permissionKeys by {
        forall p | exists i :: 0 <= i < |roles| && p in roles[i].permissionKeys
          ensures p in r
        {
          var i :| 0 <= i < |roles| && p in roles[i].permissionKeys;
          if i > 0 {
            assert roles[1..][i - 1] == roles[i];
          }
        }
      }
      r
  }

  /** The flattening keeps order: the permissions of two runs of roles are
      the permissions of the first followed by those of the second. */
  lemma {:induction false} PermissionsOfConcat(a: seq<Role>, b: seq<Role>)
    ensures Permissions(a + b) == Permissions(a) + Permissions(b)
  {
    if a == [] {
      assert a + b == b;
    } else {
      assert (a + b)[0] == a[0];
      assert (a + b)[1..] == a[1..] + b;
      PermissionsOfConcat(a[1..], b);
    }
  }

  /** The administrator a login attempt lets in: the one with that username,
      if active (status 1) and the password matches its hash; checked in that
      order (admin.service.ts lines 12-37). */
  function AdminLogin(admins: seq<Admin>, username: string, password: string,
                      matches: (string, string) -> bool): (r: Option<nat>)
    ensures r.Some? ==> r == FindAdmin(admins, username)
    ensures r.Some? <==>
      var k := FindAdmin(admins, username);
      k.Some? && admins[k.value].status == 1 && matches(password, admins[k.value].password)
  {
    match FindAdmin(admins, username)
    case None => None
    case Some(k) =>
      if admins[k].status != 1 then None
      else if !matches(password, admins[k].password) then None
      else Some(k)
  }

  /** The logged-in administrator as login returns it: the row without its
      password, plus the flattened permissions. */
  function AdminInfoOf(a: Admin): (r: AdminInfo)
    ensures r.id == a.id && r.username == a.username && r.email == a.email && r.fullName == a.fullName
    ensures r.status == a.status && r.lastLoginAt == a.lastLoginAt && r.roles == a.roles
    ensures r.permissions == Permissions(a.roles)
    ensures forall p :: p in r.permissions <==> exists i :: 0 <= i < |a.roles| && p in a.roles[i].permissionKeys
  {
    AdminInfo(a.id, a.username, a.email, a.fullName, a.status, a.lastLoginAt, a.roles, Permissions(a.roles))
  }

  /** Staff login (admin.service.ts lines 12-52): null unless the username,
      status and password all pass; on success the login time is stored, and
      the answer shows the row as it was loaded, before that update. The
      clock and the password check are parameters. */
  method Login(db: Database, username: string, password: string, matches: (string, string) -> bool, now: int)
    returns (r: Option<AdminInfo>)
    requires db.Valid()
    modifies db
    ensures db.Valid()
    ensures var k := AdminLogin(old(db.admins), username, password, matches);
      && (k.None? ==> r.None? && db.State() == old(db.State()))
      && (k.Some? ==>
            && db.State() == old(db.State()).(admins := old(db.admins)[k.value := old(db.admins)[k.value].(lastLoginAt := Some(now))])
            && r == Some(AdminInfoOf(old(db.admins)[k.value])))
  {
    var k := AdminLogin(db.admins, username, password, matches);
    if k.None? {
      return None;
    }
    var admin := db.admins[k.value];
    db.admins := db.admins[k.value := admin.(lastLoginAt := Some(now))];
    r := Some(AdminInfoOf(admin));
  }

  // ---------------------------------------------------------------------------
  // Stock adjustment
  // ---------------------------------------------------------------------------

  /** What updateStock answers: the stock before and after. */
  datatype StockChange = StockChange(beforeQuantity: int, afterQuantity: int)

  function Abs(n: int): (r: nat)
    ensures r == n || r == -n
  {
    if n < 0 then -n else n
  }

  /** The ledger row of a manual adjustment (admin.service.ts lines 468-479):
      "in" for a positive quantity and "out" otherwise, the magnitude as the
      change, by an administrator. */
  function AdjustmentLog(bookId: int, quantity: int, before: int, operatorId: Option<int>, remark: Option<string>): (r: StockLog)
    ensures r.bookId == bookId && r.beforeQuantity == before && r.afterQuantity == before + quantity
    ensures r.changeType == StockIn <==> quantity > 0
    ensures r.changeType.Name() == (if quantity > 0 then "in" else "out")
    ensures r.changeType != Sale && r.changeQuantity >= 0
    ensures r.afterQuantity == r.beforeQuantity + SignedDelta(r)
    ensures r.operatorType == AdminOperator && r.operatorId == operatorId && r.relatedOrderId.None?
  {
    StockLog(bookId, if quantity > 0 then StockIn else StockOut, Abs(quantity), before, before + quantity,
             None, operatorId, AdminOperator, remark)
  }

  /** The tables after an adjustment of an existing book's stock. */
  ghost function Adjusted(s: Tables, bookId: int, quantity: int, operatorId: Option<int>, remark: Option<string>): Tables
    requires bookId in s.books
  {
    var before := s.books[bookId].stockQuantity;
    s.(books := s.books[bookId := s.books[bookId].(stockQuantity := before + quantity)],
       stockLogs := s.stockLogs + [AdjustmentLog(bookId, quantity, before, operatorId, remark)])
  }

  /** An adjustment keeps every integrity rule, the ledger's included, for
      any quantity: nothing bounds the stock from below. */
  lemma AdjustmentKeepsRules(s: Tables, bookId: int, quantity: int, operatorId: Option<int>, remark: Option<string>)
    requires TablesOk(s) && bookId in s.books
    ensures TablesOk(Adjusted(s, bookId, quantity, operatorId, remark))
  {
    var b := s.books[bookId];
    var l := AdjustmentLog(bookId, quantity, b.stockQuantity, operatorId, remark);
    LedgerAppend(s.books, s.stockLogs, s.initialStock, l, b.(stockQuantity := b.stockQuantity + quantity));
  }

  /** Adds quantity, of either sign, to a book's stock and writes the ledger
      row (admin.service.ts lines 456-483). A missing book fails and changes
      nothing. */
  method UpdateStock(db: Database, bookId: int, quantity: int, operatorId: Option<int>, remark: Option<string>)
    returns (r: Result<StockChange>)
    requires db.Valid()
    modifies db
    ensures db.Valid()
    ensures bookId !in old(db.books) ==> r == Err("Book not found") && db.State() == old(db.State())
    ensures bookId in old(db.books) ==>
              && db.State() == Adjusted(old(db.State()), bookId, quantity, operatorId, remark)
              && r == Ok(StockChange(old(db.books[bookId].stockQuantity), old(db.books[bookId].stockQuantity) + quantity))
  {
    if bookId !in db.books {
      return Err("Book not found");
    }
    AdjustmentKeepsRules(db.State(), bookId, quantity, operatorId, remark);
    var change := AdjustStock(db, bookId, quantity, operatorId, remark);
    r := Ok(change);
  }

  /** The transaction of updateStock (admin.service.ts lines 460-482): the new
      stock and the ledger row, written together. */
  method AdjustStock(db: Database, bookId: int, quantity: int, operatorId: Option<int>, remark: Option<string>)
    returns (change: StockChange)
    requires bookId in db.books
    modifies db
    ensures db.State() == Adjusted(old(db.State()), bookId, quantity, operatorId, remark)
    ensures change == StockChange(old(db.books[bookId].stockQuantity), old(db.books[bookId].stockQuantity) + quantity)
  {
    ghost var t := Adjusted(db.State(), bookId, quantity, operatorId, remark);
    var book := db.books[bookId];
    var before := book.stockQuantity;
    var after := before + quantity;
    db.books := db.books[bookId := book.(stockQuantity := after)];
    db.stockLogs := db.stockLogs + [AdjustmentLog(bookId, quantity, before, operatorId, remark)];
    assert db.State() == t;
    change := StockChange(before, after);
  }

  /** A consistent ledger accounts for every adjustment: after it, the book's
      stock is still its initial stock plus the signed changes recorded. */
  lemma AdjustedStockIsRecorded(s: Tables, bookId: int, quantity: int, operatorId: Option<int>, remark: Option<string>)
    requires TablesOk(s) && bookId in s.books
    ensures var t := Adjusted(s, bookId, quantity, operatorId, remark);
            t.books[bookId].stockQuantity == s.initialStock[bookId] + DeltaSum(t.stockLogs, bookId)
  {
    AdjustmentKeepsRules(s, bookId, quantity, operatorId, remark);
    var t := Adjusted(s, bookId, quantity, operatorId, remark);
    ReplayIsRunningSum(t.stockLogs, bookId, s.initialStock[bookId]);
  }

  // ---------------------------------------------------------------------------
  // Status updates
  // ---------------------------------------------------------------------------

  /** Position of the user with this id. */
  function FindUser(users: seq<User>, id: int): (r: Option<nat>)
    ensures r.Some? ==> r.value < |users| && users[r.value].id == id
    ensures r.None? <==> forall i :: 0 <= i < |users| ==> users[i].id != id
  {
    FindFirst(users, (u: User) => u.id == id)
  }

  /** Changing a user's status keeps the user table's rules and its set of ids. */
  lemma SetStatusKeepsRules(users: seq<User>, nextUserId: nat, k: nat, status: int)
    requires UsersOk(users, nextUserId) && k < |users|
    ensures UserIds(users[k := users[k].(status := status)]) == UserIds(users)
    ensures UsersOk(users[k := users[k].(status := status)], nextUserId)
  {
    var t := users[k := users[k].(status := status)];
    forall id ensures id in UserIds(t) <==> id in UserIds(users) {
      if id in UserIds(t) {
        var u :| u in t && u.id == id;
        var i :| 0 <= i < |t| && t[i] == u;
        assert users[i] in users;
      }
      if id in UserIds(users) {
        var u :| u in users && u.id == id;
        var i :| 0 <= i < |users| && users[i] == u;
        assert t[i] in t;
      }
    }
    forall u | u in t ensures u.id < nextUserId {
      var i :| 0 <= i < |t| && t[i] == u;
      assert users[i] in users;
    }
  }

  /** Overwrites a user's status with any value (admin.service.ts lines
      289-294); a missing user fails as the datastore's update does. */
  method UpdateUserStatus(db: Database, userId: int, status: int) returns (r: Result<User>)
    requires db.Valid()
    modifies db
    ensures db.Valid()
    ensures FindUser(old(db.users), userId).None? ==> r == Err(RecordNotFound) && db.State() == old(db.State())
    ensures FindUser(old(db.users), userId).Some? ==>
              var k := FindUser(old(db.users), userId).value;
              && r == Ok(old(db.users[k]).(status := status))
              && db.State() == old(db.State()).(users := old(db.users)[k := r.value])
  {
    var k := FindUser(db.users, userId);
    if k.None? {
      return Err(RecordNotFound);
    }
    SetStatusKeepsRules(db.users, db.nextUserId, k.value, status);
    var u := db.users[k.value].(status := status);
    db.users := db.users[k.value := u];
    r := Ok(u);
  }

  /** Overwrites an order's status with any string, with no check of the
      transition (admin.service.ts lines 354-359); a missing order fails as
      the datastore's update does. */
  method UpdateOrderStatus(db: Database, orderId: int, status: string) returns (r: Result<Order>)
    requires db.Valid()
    modifies db
    ensures db.Valid()
    ensures orderId !in old(db.orders) ==> r == Err(RecordNotFound) && db.State() == old(db.State())
    ensures orderId in old(db.orders) ==>
              && r == Ok(old(db.orders[orderId]).(status := status))
              && db.State() == old(db.State()).(orders := old(db.orders)[orderId := r.value])
  {
    if orderId !in db.orders {
      return Err(RecordNotFound);
    }
    var o := db.orders[orderId].(status := status);
    db.orders := db.orders[orderId := o];
    r := Ok(o);
  }

  // ---------------------------------------------------------------------------
  // Paging of the list screens
  // ---------------------------------------------------------------------------

  /** The rows a list screen skips to show a page (pages count from 1). */
  function Skip(page: int, pageSize: int): (r: int)
    ensures page >= 1 && pageSize >= 0 ==> r >= 0
    ensures page == 1 ==> r == 0
  {
    (page - 1) * pageSize
  }

  /** Pages 1 to totalPages show every row exactly once: row i lies on page
      i / pageSize + 1, which is one of them, on no other page, and the last
      page starts within the list. */
  lemma PagesCoverEveryRow(total: nat, pageSize: int, i: nat)
    requires pageSize > 0 && i < total
    ensures var p := i / pageSize + 1;
            && 1 <= p <= TotalPages(total, pageSize)
            && Skip(p, pageSize) <= i < Skip(p, pageSize) + pageSize
    ensures forall q :: Skip(q, pageSize) <= i < Skip(q, pageSize) + pageSize ==> q == i / pageSize + 1
    ensures Skip(TotalPages(total, pageSize), pageSize) < total
  {
    var q := i / pageSize;
    var n := TotalPages(total, pageSize);
    assert q * pageSize + i % pageSize == i;
    assert q * pageSize < n * pageSize;
    FactorOrder(q, n, pageSize);
    assert Skip(q + 1, pageSize) == q * pageSize;
    forall p | Skip(p, pageSize) <= i < Skip(p, pageSize) + pageSize
      ensures p == q + 1
    {
      OnlyOneBlock(i, pageSize, p - 1);
    }
  }

  /** Row i lies in block a of size c only when a is i / c. */
  lemma OnlyOneBlock(i: int, c: int, a: int)
    requires c > 0 && a * c <= i < a * c + c
    ensures a == i / c
  {
    var b := i / c;
    assert b * c <= i < b * c + c;
    assert (a + 1) * c == a * c + c && (b + 1) * c == b * c + c;
    FactorOrder(a, b + 1, c);
    FactorOrder(b, a + 1, c);
  }

  /** Multiplying by a positive factor keeps strict order, read backwards. */
  lemma FactorOrder(a: int, b: int, c: int)
    requires c > 0 && a * c < b * c
    ensures a < b
  {
    assert (b - a) * c == b * c - a * c;
  }
}
