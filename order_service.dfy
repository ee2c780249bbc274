/** The order service (server/services/order.service.ts): checkout of the
    user's cart into an order, looking an order up, and changing its status.
    Checkout validates every line before it writes anything; the writes then
    happen together: the order with its price-snapshotted lines, the stock and
    sales of every book sold with one ledger row per line, and the emptied
    cart. */
module OrderService {
  import opened Types
  import opened Datastore
  import opened CartService

  // ---------------------------------------------------------------------------
  // Validation of the cart lines
  // ---------------------------------------------------------------------------

  /** Why one cart line cannot be sold, checked in the source's order: first
      the stock, then the book's status. */
  function LineError(l: CartLine): (r: Option<string>)
    ensures r.None? <==> l.quantity <= l.book.stockQuantity && l.book.status == 1
  {
    if l.book.stockQuantity < l.quantity then Some("Insufficient stock for: " + l.book.title)
    else if l.book.status != 1 then Some("Book not available: " + l.book.title)
    else None
  }

  /** The error of the first line that cannot be sold, if any. */
  function FirstError(lines: seq<CartLine>): (r: Option<string>)
    ensures r.None? <==> forall j :: 0 <= j < |lines| ==> LineError(lines[j]).None?
  {
    if lines == [] then None
    else if LineError(lines[0]).Some? then LineError(lines[0])
    else FirstError(lines[1..])
  }

  /** The first failing line decides the error checkout reports. */
  lemma {:induction false} FirstErrorIsFirstFailing(lines: seq<CartLine>, k: nat)
    requires k < |lines| && LineError(lines[k]).Some?
    requires forall j :: 0 <= j < k ==> LineError(lines[j]).None?
    ensures FirstError(lines) == LineError(lines[k])
  {
    if k > 0 {
      assert LineError(lines[0]).None?;
      assert lines[1..][k - 1] == lines[k];
      FirstErrorIsFirstFailing(lines[1..], k - 1);
    }
  }

  /** The validation loop of createOrder (order.service.ts lines 33-40): the
      error of the first line that cannot be sold, or none. */
  method ValidateLines(lines: seq<CartLine>) returns (problem: Option<string>)
    ensures problem == FirstError(lines)
  {
    var i := 0;
    while i < |lines|
      invariant 0 <= i <= |lines|
      invariant forall j :: 0 <= j < i ==> LineError(lines[j]).None?
    {
      var line := lines[i];
      if line.book.stockQuantity < line.quantity {
        FirstErrorIsFirstFailing(lines, i);
        return Some("Insufficient stock for: " + line.book.title);
      }
      if line.book.status != 1 {
        FirstErrorIsFirstFailing(lines, i);
        return Some("Book not available: " + line.book.title);
      }
      i := i + 1;
    }
    return None;
  }

  // ---------------------------------------------------------------------------
  // The order
  // ---------------------------------------------------------------------------

  /** The order lines: one per cart line, with the book's price at checkout. */
  function OrderItemsOf(lines: seq<CartLine>): (r: seq<OrderItem>)
    ensures |r| == |lines|
    ensures forall i :: 0 <= i < |lines| ==>
              r[i].bookId == lines[i].bookId && r[i].quantity == lines[i].quantity && r[i].unitPrice == lines[i].book.price
  {
    if lines == [] then []
    else [OrderItem(lines[0].bookId, lines[0].quantity, lines[0].book.price)] + OrderItemsOf(lines[1..])
  }

  /** The sum of unit price times quantity over order lines. */
  function OrderTotal(items: seq<OrderItem>): int
  {
    if items == [] then 0 else items[0].unitPrice * items[0].quantity + OrderTotal(items[1..])
  }

  /** The order's lines add up to the cart's total. */
  lemma {:induction false} OrderTotalIsCartTotal(lines: seq<CartLine>)
    ensures OrderTotal(OrderItemsOf(lines)) == TotalAmount(lines)
  {
    if lines != [] {
      OrderTotalIsCartTotal(lines[1..]);
      assert OrderItemsOf(lines)[1..] == OrderItemsOf(lines[1..]);
    }
  }

  /** The order checkout creates from the cart lines (order.service.ts lines
      43-64): pending, for the caller, at the cart's total. */
  function NewOrder(userId: int, paymentId: Option<int>, shippingAddress: string, lines: seq<CartLine>): (o: Order)
    ensures o.userId == userId && o.paymentId == paymentId && o.shippingAddress == shippingAddress
    ensures o.status == Pending.Name()
    ensures o.items == OrderItemsOf(lines)
    ensures o.totalAmount == OrderTotal(o.items) == TotalAmount(lines)
  {
    OrderTotalIsCartTotal(lines);
    Order(userId, paymentId, TotalAmount(lines), shippingAddress, Pending.Name(), OrderItemsOf(lines))
  }

  /** An order as the service returns it, each line with its book's title. */
  function OrderInfoOf(id: int, o: Order, books: map<int, Book>): (r: OrderInfo)
    requires forall it :: it in o.items ==> it.bookId in books
    ensures r.id == id && r.userId == o.userId && r.totalAmount == o.totalAmount
    ensures r.status == o.status && r.shippingAddress == o.shippingAddress
    ensures |r.items| == |o.items|
    ensures forall i :: 0 <= i < |o.items| ==>
              r.items[i] == OrderItemInfo(o.items[i].bookId, books[o.items[i].bookId].title, o.items[i].quantity, o.items[i].unitPrice)
  {
    var items := seq(|o.items|, i requires 0 <= i < |o.items| =>
                   OrderItemInfo(o.items[i].bookId, books[o.items[i].bookId].title, o.items[i].quantity, o.items[i].unitPrice));
    OrderInfo(id, o.userId, o.totalAmount, o.status, o.shippingAddress, items)
  }

  // ---------------------------------------------------------------------------
  // Stock, sales and the ledger
  // ---------------------------------------------------------------------------

  /** Nothing in checkout rejects a line whose quantity is below 1, which
      addItem lets into a cart: such a line passes validation, puts stock
      back, takes sales away and makes the order total negative. */
  lemma NegativeLinePassesCheckout(id: int, bookId: int, q: int, b: Book, userId: int,
                                   paymentId: Option<int>, shippingAddress: string)
    requires q < 0 && b.status == 1 && b.stockQuantity >= 0 && b.price > 0
    ensures var l := CartLine(id, bookId, q, b);
            && FirstError([l]).None?
            && ApplySales(map[bookId := b], [l])[bookId].stockQuantity > b.stockQuantity
            && ApplySales(map[bookId := b], [l])[bookId].salesCount < b.salesCount
            && NewOrder(userId, paymentId, shippingAddress, [l]).totalAmount < 0
  {
    var l := CartLine(id, bookId, q, b);
    assert [l][1..] == [];
    assert [l][..0] == [];
    assert TotalAmount([l]) == b.price * q;
  }

  /** A book row after selling quantity copies. */
  function Sold(b: Book, quantity: int): (r: Book)
    ensures r.stockQuantity == b.stockQuantity - quantity && r.salesCount == b.salesCount + quantity
    ensures r.stockQuantity + r.salesCount == b.stockQuantity + b.salesCount
    ensures r.title == b.title && r.price == b.price && r.status == b.status
  {
    b.(stockQuantity := b.stockQuantity - quantity, salesCount := b.salesCount + quantity)
  }

  /** The book table after the update loop of checkout has sold the lines one
      after the other (order.service.ts lines 74-81). */
  function ApplySales(books: map<int, Book>, lines: seq<CartLine>): (r: map<int, Book>)
    requires forall l :: l in lines ==> l.bookId in books
    ensures r.Keys == books.Keys
  {
    if lines == [] then books
    else
      var prior := ApplySales(books, lines[..|lines| - 1]);
      var l := lines[|lines| - 1];
      prior[l.bookId := Sold(prior[l.bookId], l.quantity)]
  }

  function BookIds(lines: seq<CartLine>): set<int>
  {
    set l | l in lines :: l.bookId
  }

  /** No two lines are for the same book, as in one cart. */
  predicate DistinctBooks(lines: seq<CartLine>)
  {
    forall i, j :: 0 <= i < j < |lines| ==> lines[i].bookId != lines[j].bookId
  }

  /** Every line carries the row of its book as the table holds it. */
  predicate LoadedFrom(lines: seq<CartLine>, books: map<int, Book>)
  {
    forall l :: l in lines ==> l.bookId in books && l.book == books[l.bookId]
  }

  /** In lines for distinct books, the last line's book is not among the
      books of the lines before it. */
  lemma LastBookIsNew(lines: seq<CartLine>)
    requires lines != [] && DistinctBooks(lines)
    ensures lines[|lines| - 1].bookId !in BookIds(lines[..|lines| - 1])
  {
    var n := |lines| - 1;
    forall l | l in lines[..n] ensures l.bookId != lines[n].bookId {
      var i :| 0 <= i < n && lines[..n][i] == l;
      assert lines[i].bookId != lines[n].bookId;
    }
  }

  /** With one line per book, each book in the cart is sold exactly its line's
      quantity and every other book is left as it was. */
  lemma {:induction false} SalesEffect(books: map<int, Book>, lines: seq<CartLine>)
    requires forall l :: l in lines ==> l.bookId in books
    requires DistinctBooks(lines)
    ensures forall i :: 0 <= i < |lines| ==>
              ApplySales(books, lines)[lines[i].bookId] == Sold(books[lines[i].bookId], lines[i].quantity)
    ensures forall b :: b in books && b !in BookIds(lines) ==> ApplySales(books, lines)[b] == books[b]
  {
    if lines != [] {
      var n := |lines| - 1;
      var prefix := lines[..n];
      var last := lines[n];
      assert forall i :: 0 <= i < n ==> prefix[i] == lines[i];
      SalesEffect(books, prefix);
      LastBookIsNew(lines);
      forall b | b in books && b !in BookIds(lines) ensures ApplySales(books, lines)[b] == books[b] {
        assert last in lines;
        forall l | l in prefix ensures l in lines { }
      }
    }
  }

  /** The checkout's stock decrements are covered by the validated stock: no
      book in the cart ends with negative stock. */
  lemma CheckoutKeepsStockNonNegative(books: map<int, Book>, lines: seq<CartLine>)
    requires LoadedFrom(lines, books) && DistinctBooks(lines)
    requires FirstError(lines).None?
    ensures forall i :: 0 <= i < |lines| ==>
              ApplySales(books, lines)[lines[i].bookId].stockQuantity == books[lines[i].bookId].stockQuantity - lines[i].quantity >= 0
  {
    SalesEffect(books, lines);
    forall i | 0 <= i < |lines|
      ensures books[lines[i].bookId].stockQuantity - lines[i].quantity >= 0
    {
      assert lines[i] in lines && LineError(lines[i]).None?;
    }
  }

  /** The ledger row of one sold line (order.service.ts lines 84-95): the
      negated quantity, the stock the line was loaded with as the before
      figure, and the order it belongs to. */
  function SaleLog(l: CartLine, orderId: nat): (r: StockLog)
    ensures r.bookId == l.bookId && r.changeType == Sale && r.changeQuantity == -l.quantity
    ensures r.beforeQuantity == l.book.stockQuantity && r.afterQuantity == r.beforeQuantity + SignedDelta(r)
    ensures r.relatedOrderId == Some(orderId) && r.operatorType == SystemOperator
    ensures r.changeType.Name() == "sale"
  {
    StockLog(l.bookId, Sale, -l.quantity, l.book.stockQuantity, l.book.stockQuantity - l.quantity,
             Some(orderId), None, SystemOperator, Some("Order #" + NatToString(orderId)))
  }

  /** The ledger rows of checkout, one per line in line order. */
  function SaleLogs(lines: seq<CartLine>, orderId: nat): (r: seq<StockLog>)
    ensures |r| == |lines|
    ensures forall i :: 0 <= i < |lines| ==> r[i] == SaleLog(lines[i], orderId)
  {
    if lines == [] then []
    else SaleLogs(lines[..|lines| - 1], orderId) + [SaleLog(lines[|lines| - 1], orderId)]
  }

  /** Checkout keeps the ledger consistent: with one line per book, each
      sale row starts at the book's stock as loaded, which is its stock when
      the row is written. */
  lemma {:induction false} SalesKeepLedger(books: map<int, Book>, logs: seq<StockLog>, initialStock: map<int, int>,
                                           lines: seq<CartLine>, orderId: nat)
    requires LedgerOk(books, logs, initialStock)
    requires LoadedFrom(lines, books) && DistinctBooks(lines)
    ensures LedgerOk(ApplySales(books, lines), logs + SaleLogs(lines, orderId), initialStock)
  {
    if lines == [] {
      assert logs + [] == logs;
    } else {
      var n := |lines| - 1;
      var prefix := lines[..n];
      var last := lines[n];
      var prior := ApplySales(books, prefix);
      var priorLogs := logs + SaleLogs(prefix, orderId);
      assert LedgerOk(prior, priorLogs, initialStock) && last.bookId in prior
             && prior[last.bookId].stockQuantity == last.book.stockQuantity by {
        PrefixIsLoaded(lines, books);
        SalesKeepLedger(books, logs, initialStock, prefix, orderId);
        SalesEffect(books, prefix);
        LastBookIsNew(lines);
      }
      SaleStepKeepsLedger(prior, priorLogs, initialStock, last, orderId);
      assert logs + SaleLogs(lines, orderId) == priorLogs + [SaleLog(last, orderId)];
    }
  }

  /** The lines before the last are loaded from the table and for distinct
      books, as all the lines are. */
  lemma PrefixIsLoaded(lines: seq<CartLine>, books: map<int, Book>)
    requires lines != [] && LoadedFrom(lines, books) && DistinctBooks(lines)
    ensures LoadedFrom(lines[..|lines| - 1], books) && DistinctBooks(lines[..|lines| - 1])
    ensures lines[|lines| - 1].bookId in books && lines[|lines| - 1].book == books[lines[|lines| - 1].bookId]
  {
    var n := |lines| - 1;
    assert lines[n] in lines;
    forall l | l in lines[..n] ensures l in lines { }
  }

  /** Selling one line whose book still has the stock the line was loaded
      with, and writing its sale row, keeps the ledger consistent. */
  lemma SaleStepKeepsLedger(books: map<int, Book>, logs: seq<StockLog>, initialStock: map<int, int>,
                            l: CartLine, orderId: nat)
    requires LedgerOk(books, logs, initialStock)
    requires l.bookId in books && books[l.bookId].stockQuantity == l.book.stockQuantity
    ensures LedgerOk(books[l.bookId := Sold(books[l.bookId], l.quantity)], logs + [SaleLog(l, orderId)], initialStock)
  {
    LedgerAppend(books, logs, initialStock, SaleLog(l, orderId), Sold(books[l.bookId], l.quantity));
  }

  /** The update loop of checkout (order.service.ts lines 74-96): for each line
      in turn, sell its quantity and write its ledger row. */
  method RecordSales(db: Database, lines: seq<CartLine>, orderId: nat)
    requires forall l :: l in lines ==> l.bookId in db.books
    modifies db
    ensures db.State() == old(db.State()).(books := ApplySales(old(db.books), lines),
                                           stockLogs := old(db.stockLogs) + SaleLogs(lines, orderId))
  {
    var i := 0;
    while i < |lines|
      invariant 0 <= i <= |lines|
      invariant forall l :: l in lines[..i] ==> l in lines
      invariant db.books == ApplySales(old(db.books), lines[..i])
      invariant db.stockLogs == old(db.stockLogs) + SaleLogs(lines[..i], orderId)
      invariant db.State() == old(db.State()).(books := db.books, stockLogs := db.stockLogs)
    {
      var line := lines[i];
      assert line in lines;
      var book := db.books[line.bookId];
      ghost var books := db.books[line.bookId := Sold(book, line.quantity)];
      ghost var logs := db.stockLogs + [SaleLog(line, orderId)];
      assert books == ApplySales(old(db.books), lines[..i + 1]) && logs == old(db.stockLogs) + SaleLogs(lines[..i + 1], orderId) by {
        assert lines[..i + 1][..i] == lines[..i];
      }
      db.books := db.books[line.bookId := Sold(book, line.quantity)];
      db.stockLogs := db.stockLogs + [SaleLog(line, orderId)];
      i := i + 1;
    }
    assert lines[..i] == lines;
  }

  /** The tables after a successful checkout of the user's cart lines. */
  ghost function CheckedOut(s: Tables, userId: int, shippingAddress: string, paymentId: Option<int>,
                            lines: seq<CartLine>): Tables
    requires userId in s.carts
    requires forall l :: l in lines ==> l.bookId in s.books
  {
    s.(orders := s.orders[s.nextOrderId := NewOrder(userId, paymentId, shippingAddress, lines)],
       nextOrderId := s.nextOrderId + 1,
       books := ApplySales(s.books, lines),
       stockLogs := s.stockLogs + SaleLogs(lines, s.nextOrderId),
       cartItems := WithoutCart(s.cartItems, s.carts[userId]))
  }

  /** Checks out the user's cart (order.service.ts lines 15-121). A missing or
      empty cart fails, as does any line that cannot be sold, and a failure
      changes nothing. Otherwise the order is created, every line's book is
      sold with its ledger row written, and the cart, which stays, is
      emptied. */
  method CreateOrder(db: Database, userId: int, shippingAddress: string, paymentMethodId: Option<int>)
    returns (r: Result<OrderInfo>)
    requires db.Valid()
    modifies db
    ensures db.Valid()
    ensures var lines := old(db.CartLinesOf(userId));
      && (lines == [] ==> r == Err("Cart is empty") && db.State() == old(db.State()))
      && (lines != [] && FirstError(lines).Some? ==>
            r == Err(FirstError(lines).value) && db.State() == old(db.State()))
      && (lines != [] && FirstError(lines).None? ==>
            && userId in old(db.carts)
            && (forall l :: l in lines ==> l.bookId in old(db.books))
            && db.State() == CheckedOut(old(db.State()), userId, shippingAddress, paymentMethodId, lines)
            && r == Ok(OrderInfoOf(old(db.nextOrderId), NewOrder(userId, paymentMethodId, shippingAddress, lines), old(db.books))))
  {
    var lines := db.CartLinesOf(userId);
    if lines == [] {
      return Err("Cart is empty");
    }
    var problem := ValidateLines(lines);
    if problem.Some? {
      return Err(problem.value);
    }
    CheckoutKeepsRules(db.State(), userId, shippingAddress, paymentMethodId, lines);
    r := PlaceOrder(db, userId, shippingAddress, paymentMethodId, lines);
  }

  /** The transaction of checkout (order.service.ts lines 49-104): the order
      and its lines, the sales with their ledger rows, the emptied cart. */
  method PlaceOrder(db: Database, userId: int, shippingAddress: string, paymentMethodId: Option<int>,
                    lines: seq<CartLine>) returns (r: Result<OrderInfo>)
    requires userId in db.carts && forall l :: l in lines ==> l.bookId in db.books
    modifies db
    ensures db.State() == CheckedOut(old(db.State()), userId, shippingAddress, paymentMethodId, lines)
    ensures r == Ok(OrderInfoOf(old(db.nextOrderId), NewOrder(userId, paymentMethodId, shippingAddress, lines), old(db.books)))
  {
    ghost var t := CheckedOut(db.State(), userId, shippingAddress, paymentMethodId, lines);
    var books := db.books;
    var cartId := db.carts[userId];
    var orderId := db.nextOrderId;
    var order := NewOrder(userId, paymentMethodId, shippingAddress, lines);
    db.orders := db.orders[orderId := order];
    db.nextOrderId := orderId + 1;
    RecordSales(db, lines, orderId);
    db.cartItems := WithoutCart(db.cartItems, cartId);
    assert db.State() == t;
    r := Ok(OrderInfoOf(orderId, order, books));
  }

  /** A checkout of the lines of one user's cart keeps every integrity rule of
      the store, the ledger's included. */
  lemma CheckoutKeepsRules(s: Tables, userId: int, shippingAddress: string, paymentId: Option<int>, lines: seq<CartLine>)
    requires TablesOk(s) && userId in s.carts
    requires lines == Join(CartRows(s.cartItems, s.carts[userId]), s.books)
    ensures forall l :: l in lines ==> l.bookId in s.books
    ensures TablesOk(CheckedOut(s, userId, shippingAddress, paymentId, lines))
  {
    var cartId := s.carts[userId];
    assert LoadedFrom(lines, s.books);
    assert DistinctBooks(lines) by {
      CartRowsDistinctBooks(s.cartItems, cartId);
    }
    var newBooks := ApplySales(s.books, lines);
    SalesKeepLedger(s.books, s.stockLogs, s.initialStock, lines, s.nextOrderId);
    NewOrderKeepsOrders(s.orders, s.books, s.nextOrderId, NewOrder(userId, paymentId, shippingAddress, lines), newBooks, lines);
    ClearKeepsRules(s.cartItems, s.books, s.nextCartId, s.nextCartItemId, cartId, newBooks);
  }

  /** Adding the new order keeps the order table's rules whatever the sales did
      to the books, since they keep the same ids. */
  lemma NewOrderKeepsOrders(orders: map<int, Order>, books: map<int, Book>, nextOrderId: nat, o: Order,
                            newBooks: map<int, Book>, lines: seq<CartLine>)
    requires OrdersOk(orders, books, nextOrderId)
    requires o.items == OrderItemsOf(lines) && forall l :: l in lines ==> l.bookId in books
    requires newBooks.Keys == books.Keys
    ensures OrdersOk(orders[nextOrderId := o], newBooks, nextOrderId + 1)
  {
    forall it | it in o.items ensures it.bookId in newBooks {
      var i :| 0 <= i < |o.items| && o.items[i] == it;
      assert lines[i] in lines;
    }
  }

  /** Emptying a cart keeps the cart-item table's rules whatever the sales did
      to the books, since they keep the same ids. */
  lemma ClearKeepsRules(rows: seq<CartItem>, books: map<int, Book>, nextCartId: nat, nextCartItemId: nat,
                        cartId: int, newBooks: map<int, Book>)
    requires CartItemsOk(rows, books, nextCartId, nextCartItemId)
    requires newBooks.Keys == books.Keys
    ensures CartItemsOk(WithoutCart(rows, cartId), newBooks, nextCartId, nextCartItemId)
  {
    SelectKeepsUnique(rows, NotInCart(cartId));
  }

  // ---------------------------------------------------------------------------
  // Reading and updating orders
  // ---------------------------------------------------------------------------

  /** One order as the service returns it (order.service.ts lines 170-200).
      An owner filter applies only for a truthy user id: none or 0 finds the
      order whoever owns it. */
  function GetOrderById(orders: map<int, Order>, books: map<int, Book>, orderId: int, userId: Option<int>): (r: Option<OrderInfo>)
    requires forall o :: o in orders ==> forall it :: it in orders[o].items ==> it.bookId in books
    ensures r.Some? <==> orderId in orders && (userId.None? || userId.value == 0 || orders[orderId].userId == userId.value)
    ensures r.Some? ==> r.value.id == orderId && r.value == OrderInfoOf(orderId, orders[orderId], books)
  {
    if orderId !in orders then None
    else if userId.Some? && userId.value != 0 && orders[orderId].userId != userId.value then None
    else Some(OrderInfoOf(orderId, orders[orderId], books))
  }

  /** Sets an order's status, with no check of the transition
      (order.service.ts lines 205-210); a missing order fails as the
      datastore's update does. */
  method UpdateOrderStatus(db: Database, orderId: int, status: OrderStatus) returns (r: Result<Order>)
    requires db.Valid()
    modifies db
    ensures db.Valid()
    ensures orderId !in old(db.orders) ==> r == Err(RecordNotFound) && db.State() == old(db.State())
    ensures orderId in old(db.orders) ==>
              && r == Ok(old(db.orders[orderId]).(status := status.Name()))
              && db.State() == old(db.State()).(orders := old(db.orders)[orderId := r.value])
  {
    if orderId !in db.orders {
      return Err(RecordNotFound);
    }
    var o := db.orders[orderId].(status := status.Name());
    db.orders := db.orders[orderId := o];
    r := Ok(o);
  }
}
