/** The relational datastore the services work on, as in-memory tables held by
    one object, with the integrity rules the database enforces (unique keys,
    foreign keys) and the stock ledger's consistency as its invariant. */
module Datastore {
  import opened Types

  // ---------------------------------------------------------------------------
  // The cart-item table: the where-clauses the services filter it by
  // ---------------------------------------------------------------------------

  /** A where-clause over cart-item rows. */
  datatype Selector =
    | InCart(cartId: int)                 // cartId = c
    | NotInCart(cartId: int)              // everything but cartId = c
    | NotWithId(id: int)                  // everything but id = i
    | NotItemOfCart(id: int, cartId: int) // everything but (id = i and cartId = c)

  predicate Selects(s: Selector, x: CartItem)
  {
    match s
    case InCart(c) => x.cartId == c
    case NotInCart(c) => x.cartId != c
    case NotWithId(i) => x.id != i
    case NotItemOfCart(i, c) => !(x.id == i && x.cartId == c)
  }

  /** The rows a selector keeps, in table order. */
  function Select(rows: seq<CartItem>, s: Selector): (r: seq<CartItem>)
    ensures |r| <= |rows|
    ensures forall x :: x in r <==> x in rows && Selects(s, x)
  {
    if rows == [] then []
    else (if Selects(s, rows[0]) then [rows[0]] else []) + Select(rows[1..], s)
  }

  /** The rows of one cart. */
  function CartRows(rows: seq<CartItem>, cartId: int): seq<CartItem>
  {
    Select(rows, InCart(cartId))
  }

  /** The table after deleting every row of one cart. */
  function WithoutCart(rows: seq<CartItem>, cartId: int): seq<CartItem>
  {
    Select(rows, NotInCart(cartId))
  }

  /** Two rows that may sit in the table together: different ids, and not two
      lines of the same cart for the same book. */
  predicate Compatible(x: CartItem, y: CartItem)
  {
    x.id != y.id && (x.cartId != y.cartId || x.bookId != y.bookId)
  }

  /** Unique ids and the compound key (cartId, bookId) unique. */
  predicate UniqueRows(rows: seq<CartItem>)
  {
    forall i, j :: 0 <= i < j < |rows| ==> Compatible(rows[i], rows[j])
  }

  /** Deleting rows never breaks the table's unique keys. */
  lemma {:induction false} SelectKeepsUnique(rows: seq<CartItem>, s: Selector)
    requires UniqueRows(rows)
    ensures UniqueRows(Select(rows, s))
  {
    if rows != [] {
      var rest := Select(rows[1..], s);
      assert UniqueRows(rows[1..]) by {
        forall i, j | 0 <= i < j < |rows[1..]| ensures Compatible(rows[1..][i], rows[1..][j]) {
          assert rows[1..][i] == rows[i + 1] && rows[1..][j] == rows[j + 1];
        }
      }
      SelectKeepsUnique(rows[1..], s);
      if Selects(s, rows[0]) {
        forall y | y in rest ensures Compatible(rows[0], y) {
          assert y in rows[1..];
          var k :| 0 <= k < |rows[1..]| && rows[1..][k] == y;
          assert rows[k + 1] == y;
        }
        assert Select(rows, s) == [rows[0]] + rest;
      } else {
        assert Select(rows, s) == rest;
      }
    }
  }

  /** The lines of one cart name distinct books: the compound key at work. */
  lemma CartRowsDistinctBooks(rows: seq<CartItem>, cartId: int)
    requires UniqueRows(rows)
    ensures forall i, j :: 0 <= i < j < |CartRows(rows, cartId)| ==>
              CartRows(rows, cartId)[i].bookId != CartRows(rows, cartId)[j].bookId
  {
    SelectKeepsUnique(rows, InCart(cartId));
    var r := CartRows(rows, cartId);
    forall i, j | 0 <= i < j < |r| ensures r[i].bookId != r[j].bookId {
      assert r[i] in r && r[j] in r;
      assert Compatible(r[i], r[j]);
    }
  }

  /** Position of the line of this cart for this book, if there is one
      (lookup by the compound key). */
  function FindLine(rows: seq<CartItem>, cartId: int, bookId: int): (r: Option<nat>)
    ensures r.Some? ==> r.value < |rows| && rows[r.value].cartId == cartId && rows[r.value].bookId == bookId
    ensures r.None? <==> forall i :: 0 <= i < |rows| ==> !(rows[i].cartId == cartId && rows[i].bookId == bookId)
  {
    FindFirst(rows, (x: CartItem) => x.cartId == cartId && x.bookId == bookId)
  }

  /** Position of the row with this id in this cart, if there is one. */
  function FindItem(rows: seq<CartItem>, itemId: int, cartId: int): (r: Option<nat>)
    ensures r.Some? ==> r.value < |rows| && rows[r.value].id == itemId && rows[r.value].cartId == cartId
    ensures r.None? <==> forall i :: 0 <= i < |rows| ==> !(rows[i].id == itemId && rows[i].cartId == cartId)
  {
    FindFirst(rows, (x: CartItem) => x.id == itemId && x.cartId == cartId)
  }

  /** Rows loaded together with their book rows. */
  function Join(rows: seq<CartItem>, books: map<int, Book>): (r: seq<CartLine>)
    requires forall x :: x in rows ==> x.bookId in books
    ensures |r| == |rows|
  {
    seq(|rows|, i requires 0 <= i < |rows| => CartLine(rows[i].id, rows[i].bookId, rows[i].quantity, books[rows[i].bookId]))
  }

  // ---------------------------------------------------------------------------
  // The stock ledger
  // ---------------------------------------------------------------------------

  /** The signed change a ledger row records. A sale stores the negated
      quantity itself; a manual adjustment stores the magnitude and puts the
      sign in its type. */
  function SignedDelta(l: StockLog): int
  {
    match l.changeType
    case Sale => l.changeQuantity
    case StockIn => l.changeQuantity
    case StockOut => -l.changeQuantity
  }

  /** Replays the ledger rows of one book from a starting stock: Some(final
      stock) when every row starts where the previous one ended and moves by
      its signed change, None at the first row that does not. */
  function Replay(logs: seq<StockLog>, bookId: int, start: int): Option<int>
  {
    if logs == [] then Some(start)
    else
      var last := logs[|logs| - 1];
      match Replay(logs[..|logs| - 1], bookId, start)
      case None => None
      case Some(v) =>
        if last.bookId != bookId then Some(v)
        else if last.beforeQuantity == v && last.afterQuantity == v + SignedDelta(last) then Some(last.afterQuantity)
        else None
  }

  /** The sum of the signed changes recorded for one book. */
  function DeltaSum(logs: seq<StockLog>, bookId: int): int
  {
    if logs == [] then 0
    else
      var last := logs[|logs| - 1];
      DeltaSum(logs[..|logs| - 1], bookId) + (if last.bookId == bookId then SignedDelta(last) else 0)
  }

  /** Every book's ledger replays from its initial stock to its current stock. */
  ghost predicate LedgerOk(books: map<int, Book>, logs: seq<StockLog>, initialStock: map<int, int>)
  {
    forall b :: b in books ==> b in initialStock && Replay(logs, b, initialStock[b]) == Some(books[b].stockQuantity)
  }

  /** A consistent ledger accounts for the whole stock: current stock is the
      initial stock plus the sum of the recorded signed changes. */
  lemma {:induction false} ReplayIsRunningSum(logs: seq<StockLog>, bookId: int, start: int)
    requires Replay(logs, bookId, start).Some?
    ensures Replay(logs, bookId, start).value == start + DeltaSum(logs, bookId)
  {
    if logs != [] {
      ReplayIsRunningSum(logs[..|logs| - 1], bookId, start);
    }
  }

  lemma ReplaySnoc(logs: seq<StockLog>, l: StockLog, bookId: int, start: int)
    ensures Replay(logs + [l], bookId, start) ==
      match Replay(logs, bookId, start)
      case None => None
      case Some(v) =>
        if l.bookId != bookId then Some(v)
        else if l.beforeQuantity == v && l.afterQuantity == v + SignedDelta(l) then Some(l.afterQuantity)
        else None
  {
    assert (logs + [l])[..|logs|] == logs;
  }

  /** Appending a row that starts at the book's current stock and moves it by
      its signed change, and storing the new stock, keeps the ledger
      consistent. */
  lemma LedgerAppend(books: map<int, Book>, logs: seq<StockLog>, initialStock: map<int, int>, l: StockLog, nb: Book)
    requires LedgerOk(books, logs, initialStock)
    requires l.bookId in books && l.beforeQuantity == books[l.bookId].stockQuantity
    requires l.afterQuantity == l.beforeQuantity + SignedDelta(l) && nb.stockQuantity == l.afterQuantity
    ensures LedgerOk(books[l.bookId := nb], logs + [l], initialStock)
  {
    forall b | b in books[l.bookId := nb]
      ensures b in initialStock && Replay(logs + [l], b, initialStock[b]) == Some(books[l.bookId := nb][b].stockQuantity)
    {
      ReplaySnoc(logs, l, b, initialStock[b]);
    }
  }

  // ---------------------------------------------------------------------------
  // The tables and their integrity rules
  // ---------------------------------------------------------------------------

  function UserIds(users: seq<User>): set<int>
  {
    set u | u in users :: u.id
  }

  /** Cart ids are allocated and distinct; every cart belongs to a user. */
  ghost predicate CartsOk(carts: map<int, int>, users: seq<User>, nextCartId: nat)
  {
    && carts.Keys <= UserIds(users)
    && (forall u :: u in carts ==> carts[u] < nextCartId)
    && (forall u, v :: u in carts && v in carts && u != v ==> carts[u] != carts[v])
  }

  /** Cart-item ids and cart ids are allocated, books exist, keys are unique. */
  ghost predicate CartItemsOk(rows: seq<CartItem>, books: map<int, Book>, nextCartId: nat, nextCartItemId: nat)
  {
    && (forall x :: x in rows ==> x.bookId in books && x.cartId < nextCartId && x.id < nextCartItemId)
    && UniqueRows(rows)
  }

  /** Order ids are allocated and every order line names an existing book. */
  ghost predicate OrdersOk(orders: map<int, Order>, books: map<int, Book>, nextOrderId: nat)
  {
    forall o :: o in orders ==> o < nextOrderId && forall it :: it in orders[o].items ==> it.bookId in books
  }

  /** User ids are allocated and distinct; usernames and emails are distinct. */
  ghost predicate UsersOk(users: seq<User>, nextUserId: nat)
  {
    && (forall u :: u in users ==> u.id < nextUserId)
    && (forall i, j :: 0 <= i < j < |users| ==>
          users[i].id != users[j].id && users[i].username != users[j].username && users[i].email != users[j].email)
  }

  /** A new line under a fresh id, for a book the cart has no line for, keeps
      the cart-item table's rules. */
  lemma AppendRowKeepsRules(rows: seq<CartItem>, books: map<int, Book>, nextCartId: nat, nextCartItemId: nat, x: CartItem)
    requires CartItemsOk(rows, books, nextCartId, nextCartItemId)
    requires x.id == nextCartItemId && x.bookId in books && x.cartId < nextCartId
    requires FindLine(rows, x.cartId, x.bookId).None?
    ensures CartItemsOk(rows + [x], books, nextCartId, nextCartItemId + 1)
  {
    var r := rows + [x];
    forall i, j | 0 <= i < j < |r| ensures Compatible(r[i], r[j]) {
      if j == |rows| {
        assert r[i] == rows[i] && rows[i] in rows;
      } else {
        assert r[i] == rows[i] && r[j] == rows[j];
      }
    }
  }

  /** Changing the quantity of one line keeps the cart-item table's rules. */
  lemma SetQuantityKeepsRules(rows: seq<CartItem>, books: map<int, Book>, nextCartId: nat, nextCartItemId: nat, k: nat, q: int)
    requires CartItemsOk(rows, books, nextCartId, nextCartItemId)
    requires k < |rows|
    ensures CartItemsOk(rows[k := rows[k].(quantity := q)], books, nextCartId, nextCartItemId)
  {
    var r := rows[k := rows[k].(quantity := q)];
    forall x | x in r ensures x.bookId in books && x.cartId < nextCartId && x.id < nextCartItemId {
      var i :| 0 <= i < |r| && r[i] == x;
      assert rows[i] in rows;
    }
    forall i, j | 0 <= i < j < |r| ensures Compatible(r[i], r[j]) {
      assert Compatible(rows[i], rows[j]);
    }
  }

  /** Admin usernames are distinct. */
  ghost predicate AdminsOk(admins: seq<Admin>)
  {
    forall i, j :: 0 <= i < j < |admins| ==> admins[i].username != admins[j].username
  }

  /** The value of every table at one moment. */
  datatype Tables = Tables(books: map<int, Book>, carts: map<int, int>, cartItems: seq<CartItem>,
                           orders: map<int, Order>, users: seq<User>, admins: seq<Admin>,
                           stockLogs: seq<StockLog>, nextCartId: nat, nextCartItemId: nat,
                           nextOrderId: nat, nextUserId: nat, initialStock: map<int, int>)

  /** The integrity rules of the whole store. */
  ghost predicate TablesOk(t: Tables)
  {
    && CartsOk(t.carts, t.users, t.nextCartId)
    && CartItemsOk(t.cartItems, t.books, t.nextCartId, t.nextCartItemId)
    && OrdersOk(t.orders, t.books, t.nextOrderId)
    && UsersOk(t.users, t.nextUserId)
    && AdminsOk(t.admins)
    && LedgerOk(t.books, t.stockLogs, t.initialStock)
  }

  class Database {
    var books: map<int, Book>          // book id -> row
    var carts: map<int, int>           // user id -> cart id
    var cartItems: seq<CartItem>       // rows in insertion order
    var orders: map<int, Order>        // order id -> row with its lines
    var users: seq<User>
    var admins: seq<Admin>
    var stockLogs: seq<StockLog>       // append-only
    var nextCartId: nat
    var nextCartItemId: nat
    var nextOrderId: nat
    var nextUserId: nat
    ghost var initialStock: map<int, int>  // each book's stock before the first ledger row

    ghost predicate Valid()
      reads this
    {
      TablesOk(State())
    }

    ghost function State(): Tables
      reads this
    {
      Tables(books, carts, cartItems, orders, users, admins, stockLogs,
             nextCartId, nextCartItemId, nextOrderId, nextUserId, initialStock)
    }

    /** The lines of the user's cart with their books, in table order; no
        lines when the user has no cart. */
    function CartLinesOf(userId: int): (r: seq<CartLine>)
      reads this
      requires Valid()
      ensures userId !in carts ==> r == []
      ensures userId in carts ==> |r| == |CartRows(cartItems, carts[userId])|
    {
      if userId in carts then Join(CartRows(cartItems, carts[userId]), books) else []
    }

    /** A store holding a catalogue and the administrators, and nothing else. */
    constructor Seeded(catalogue: map<int, Book>, staff: seq<Admin>)
      requires AdminsOk(staff)
      ensures Valid()
      ensures books == catalogue && admins == staff
      ensures carts == map[] && cartItems == [] && orders == map[] && users == [] && stockLogs == []
    {
      books := catalogue;
      carts := map[];
      cartItems := [];
      orders := map[];
      users := [];
      admins := staff;
      stockLogs := [];
      nextCartId, nextCartItemId, nextOrderId, nextUserId := 1, 1, 1, 1;
      initialStock := map b | b in catalogue :: catalogue[b].stockQuantity;
    }
  }

  /** The lines checkout loads are the rows of the user's cart, in table
      order, each with its row's id, book and quantity and the book's
      current row. */
  lemma CartLinesAreTheCart(db: Database, userId: int)
    requires db.Valid() && userId in db.carts
    ensures var r := db.CartLinesOf(userId);
            var rows := CartRows(db.cartItems, db.carts[userId]);
            forall i :: 0 <= i < |r| ==>
              && rows[i] in db.cartItems && rows[i].cartId == db.carts[userId]
              && r[i].id == rows[i].id && r[i].bookId == rows[i].bookId && r[i].quantity == rows[i].quantity
              && r[i].bookId in db.books && r[i].book == db.books[r[i].bookId]
  {
    var rows := CartRows(db.cartItems, db.carts[userId]);
    assert forall i :: 0 <= i < |rows| ==> rows[i] in rows;
  }
}
