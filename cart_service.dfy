/** The shopping-cart service (server/services/cart.service.ts): get-or-create
    a cart, add, change and remove lines, empty the cart. Every operation
    answers with the cart as getCart shows it, its totals recomputed from the
    lines. */
module CartService {
  import opened Types
  import opened Datastore

  /** The sum of price times quantity over the lines. */
  function TotalAmount(lines: seq<CartLine>): (r: int)
    ensures (forall l :: l in lines ==> l.book.price >= 0 && l.quantity >= 0) ==> r >= 0
  {
    if lines == [] then 0 else lines[0].book.price * lines[0].quantity + TotalAmount(lines[1..])
  }

  /** The sum of the quantities of the lines. */
  function TotalItems(lines: seq<CartLine>): (r: int)
    ensures (forall l :: l in lines ==> l.quantity >= 0) ==> r >= 0
    ensures (forall l :: l in lines ==> l.quantity >= 1) ==> r >= |lines|
  {
    if lines == [] then 0 else lines[0].quantity + TotalItems(lines[1..])
  }

  lemma {:induction false} TotalsOfConcat(a: seq<CartLine>, b: seq<CartLine>)
    ensures TotalAmount(a + b) == TotalAmount(a) + TotalAmount(b)
    ensures TotalItems(a + b) == TotalItems(a) + TotalItems(b)
  {
    if a != [] {
      assert (a + b)[0] == a[0];
      assert (a + b)[1..] == a[1..] + b;
      TotalsOfConcat(a[1..], b);
    } else {
      assert a + b == b;
    }
  }

  function Reverse<T>(s: seq<T>): (r: seq<T>)
    ensures |r| == |s|
    ensures forall i :: 0 <= i < |s| ==> r[i] == s[|s| - 1 - i]
  {
    if s == [] then [] else Reverse(s[1..]) + [s[0]]
  }

  /** The totals do not depend on the order the lines are listed in: the cart
      lists newest first, checkout reads table order. */
  lemma {:induction false} TotalsOfReverse(lines: seq<CartLine>)
    ensures TotalAmount(Reverse(lines)) == TotalAmount(lines)
    ensures TotalItems(Reverse(lines)) == TotalItems(lines)
  {
    if lines != [] {
      TotalsOfReverse(lines[1..]);
      TotalsOfConcat(Reverse(lines[1..]), [lines[0]]);
      assert [lines[0]][1..] == [];
    }
  }

  /** The cart as getCart returns it: its lines newest first (addedAt
      descending; the table order stands for insertion time) with their books,
      and the totals over those lines. */
  function ViewOf(cartId: int, rows: seq<CartItem>, books: map<int, Book>): (v: CartView)
    requires forall x :: x in rows ==> x.bookId in books
    ensures v.id == cartId
    ensures v.items == Reverse(Join(CartRows(rows, cartId), books))
    ensures v.totalAmount == TotalAmount(Join(CartRows(rows, cartId), books))
    ensures v.totalItems == TotalItems(Join(CartRows(rows, cartId), books))
    ensures CartRows(rows, cartId) == [] ==> v.items == [] && v.totalAmount == 0 && v.totalItems == 0
  {
    var items := Reverse(Join(CartRows(rows, cartId), books));
    TotalsOfReverse(Join(CartRows(rows, cartId), books));
    CartView(cartId, items, TotalAmount(items), TotalItems(items))
  }

  /** A cart id that has never been handed out has no lines. */
  lemma {:induction false} FreshCartIsEmpty(rows: seq<CartItem>, nextCartId: nat)
    requires forall x :: x in rows ==> x.cartId < nextCartId
    ensures CartRows(rows, nextCartId) == []
  {
    if rows != [] {
      assert rows[0] in rows;
      FreshCartIsEmpty(rows[1..], nextCartId);
    }
  }

  /** The tables once the user has a cart: unchanged when there is one,
      otherwise with a cart under the next cart id. */
  ghost function WithCart(s: Tables, userId: int): (t: Tables)
    ensures userId in t.carts
  {
    if userId in s.carts then s
    else s.(carts := s.carts[userId := s.nextCartId], nextCartId := s.nextCartId + 1)
  }

  /** Finds the user's cart, creating it when there is none (cart.service.ts
      lines 10-38 and 80-88). Creating a cart for someone who is not a user
      breaks the cart's foreign key and fails. */
  method GetOrCreateCart(db: Database, userId: int) returns (r: Result<int>)
    requires db.Valid()
    modifies db
    ensures db.Valid()
    ensures r.Err? <==> userId !in old(db.carts) && userId !in UserIds(old(db.users))
    ensures r.Err? ==> r.message == ForeignKeyViolated && db.State() == old(db.State())
    ensures r.Ok? ==> db.State() == WithCart(old(db.State()), userId) && r.value == db.carts[userId]
  {
    if userId in db.carts {
      return Ok(db.carts[userId]);
    }
    if userId !in UserIds(db.users) {
      return Err(ForeignKeyViolated);
    }
    var cartId := db.nextCartId;
    db.carts := db.carts[userId := cartId];
    db.nextCartId := cartId + 1;
    r := Ok(cartId);
  }

  /** The user's cart, created empty when the user has none
      (cart.service.ts lines 9-73). */
  method GetCart(db: Database, userId: int) returns (r: Result<CartView>)
    requires db.Valid()
    modifies db
    ensures db.Valid()
    ensures r.Err? <==> userId !in old(db.carts) && userId !in UserIds(old(db.users))
    ensures r.Err? ==> r.message == ForeignKeyViolated && db.State() == old(db.State())
    ensures r.Ok? ==> db.State() == WithCart(old(db.State()), userId)
    ensures r.Ok? ==> r.value == ViewOf(db.carts[userId], db.cartItems, db.books)
    ensures r.Ok? && userId !in old(db.carts) ==> r.value == CartView(old(db.nextCartId), [], 0, 0)
  {
    var cart := GetOrCreateCart(db, userId);
    if cart.Err? {
      return Err(cart.message);
    }
    if userId !in old(db.carts) {
      FreshCartIsEmpty(db.cartItems, old(db.nextCartId));
    }
    r := Ok(ViewOf(cart.value, db.cartItems, db.books));
  }

  /** Adds quantity copies of a book to the user's cart (cart.service.ts lines
      78-133). The cart is created first and stays created whatever follows.
      The book must exist with status 1 and enough stock for the quantity; a
      line for the same book grows, within the stock, instead of a second line
      being made. The quantity itself is not checked to be positive. */
  method AddItem(db: Database, userId: int, bookId: int, quantity: int) returns (r: Result<CartView>)
    requires db.Valid()
    modifies db
    ensures db.Valid()
    ensures userId !in old(db.carts) && userId !in UserIds(old(db.users)) ==>
              r == Err(ForeignKeyViolated) && db.State() == old(db.State())
    ensures userId in old(db.carts) || userId in UserIds(old(db.users)) ==>
              var s := WithCart(old(db.State()), userId);
              AddedToCart(s, s.carts[userId], bookId, quantity, db.State(), r)
  {
    var cart := GetOrCreateCart(db, userId);
    if cart.Err? {
      return Err(cart.message);
    }
    ghost var s := db.State();
    r := AddToCart(db, cart.value, bookId, quantity);
    AddKeepsRules(s, cart.value, bookId, quantity, db.State(), r);
  }

  /** What adding to a cart does, from the tables s after the cart is found or
      made to the tables t afterwards and the answer r. */
  ghost predicate AddedToCart(s: Tables, cartId: int, bookId: int, quantity: int, t: Tables, r: Result<CartView>)
    requires forall x :: x in t.cartItems ==> x.bookId in t.books
  {
    var available := bookId in s.books && s.books[bookId].status == 1;
    var existing := FindLine(s.cartItems, cartId, bookId);
    && (!available ==> r == Err("Book not found or not available") && t == s)
    && (available && s.books[bookId].stockQuantity < quantity ==> r == Err("Insufficient stock") && t == s)
    && (available && quantity <= s.books[bookId].stockQuantity && existing.Some? ==>
          var row := s.cartItems[existing.value];
          if row.quantity + quantity > s.books[bookId].stockQuantity then
            r == Err("Insufficient stock") && t == s
          else
            t == s.(cartItems := s.cartItems[existing.value := row.(quantity := row.quantity + quantity)])
            && r == Ok(ViewOf(cartId, t.cartItems, t.books)))
    && (available && quantity <= s.books[bookId].stockQuantity && existing.None? ==>
          t == s.(cartItems := s.cartItems + [CartItem(s.nextCartItemId, cartId, bookId, quantity)],
                  nextCartItemId := s.nextCartItemId + 1)
          && r == Ok(ViewOf(cartId, t.cartItems, t.books)))
  }

  /** The part of addItem after the cart is known (cart.service.ts lines 90-132). */
  method AddToCart(db: Database, cartId: int, bookId: int, quantity: int) returns (r: Result<CartView>)
    requires forall x :: x in db.cartItems ==> x.bookId in db.books
    modifies db
    ensures forall x :: x in db.cartItems ==> x.bookId in db.books
    ensures AddedToCart(old(db.State()), cartId, bookId, quantity, db.State(), r)
  {
    ghost var s := db.State();
    if bookId !in db.books || db.books[bookId].status != 1 {
      return Err("Book not found or not available");
    }
    var book := db.books[bookId];
    if book.stockQuantity < quantity {
      return Err("Insufficient stock");
    }
    var existing := FindLine(db.cartItems, cartId, bookId);
    if existing.Some? {
      var row := db.cartItems[existing.value];
      var newQuantity := row.quantity + quantity;
      if newQuantity > book.stockQuantity {
        return Err("Insufficient stock");
      }
      var rows := db.cartItems[existing.value := row.(quantity := newQuantity)];
      assert forall x :: x in rows ==> x in db.cartItems || x == rows[existing.value];
      db.cartItems := rows;
      assert db.State() == s.(cartItems := rows);
    } else {
      var rows := db.cartItems + [CartItem(db.nextCartItemId, cartId, bookId, quantity)];
      db.cartItems := rows;
      db.nextCartItemId := db.nextCartItemId + 1;
      assert db.State() == s.(cartItems := rows, nextCartItemId := s.nextCartItemId + 1);
    }
    AddSucceeds(s, cartId, bookId, quantity, db.State());
    r := Ok(ViewOf(cartId, db.cartItems, db.books));
  }

  /** The two ways an add that passes its checks can end: the cart's line
      for the book grows, or a new line is appended. */
  lemma AddSucceeds(s: Tables, cartId: int, bookId: int, quantity: int, t: Tables)
    requires forall x :: x in t.cartItems ==> x.bookId in t.books
    requires bookId in s.books && s.books[bookId].status == 1 && quantity <= s.books[bookId].stockQuantity
    requires var existing := FindLine(s.cartItems, cartId, bookId);
      if existing.Some? then
        var row := s.cartItems[existing.value];
        row.quantity + quantity <= s.books[bookId].stockQuantity &&
        t == s.(cartItems := s.cartItems[existing.value := row.(quantity := row.quantity + quantity)])
      else
        t == s.(cartItems := s.cartItems + [CartItem(s.nextCartItemId, cartId, bookId, quantity)],
                nextCartItemId := s.nextCartItemId + 1)
    ensures AddedToCart(s, cartId, bookId, quantity, t, Ok(ViewOf(cartId, t.cartItems, t.books)))
  {
  }

  /** Adding to a cart that exists keeps the cart-item table's rules: a
      grown line keeps its keys, and a new line has a fresh id and a book the
      cart had no line for. */
  lemma AddKeepsRules(s: Tables, cartId: int, bookId: int, quantity: int, t: Tables, r: Result<CartView>)
    requires TablesOk(s) && cartId < s.nextCartId
    requires forall x :: x in t.cartItems ==> x.bookId in t.books
    requires AddedToCart(s, cartId, bookId, quantity, t, r)
    ensures TablesOk(t)
  {
    var existing := FindLine(s.cartItems, cartId, bookId);
    if t != s {
      if existing.Some? {
        var k := existing.value;
        var q := s.cartItems[k].quantity + quantity;
        assert t == s.(cartItems := s.cartItems[k := s.cartItems[k].(quantity := q)]);
        SetQuantityKeepsRules(s.cartItems, s.books, s.nextCartId, s.nextCartItemId, k, q);
      } else {
        var x := CartItem(s.nextCartItemId, cartId, bookId, quantity);
        assert t == s.(cartItems := s.cartItems + [x], nextCartItemId := s.nextCartItemId + 1);
        AppendRowKeepsRules(s.cartItems, s.books, s.nextCartId, s.nextCartItemId, x);
      }
    }
  }

  /** Sets the quantity of one line of the user's own cart (cart.service.ts
      lines 138-170): a quantity of zero or less deletes the line, any other
      must not exceed the book's stock. */
  method UpdateItemQuantity(db: Database, userId: int, itemId: int, quantity: int) returns (r: Result<CartView>)
    requires db.Valid()
    modifies db
    ensures db.Valid()
    ensures userId !in old(db.carts) ==> r == Err("Cart not found") && db.State() == old(db.State())
    ensures userId in old(db.carts) ==>
      var cartId := old(db.carts[userId]);
      var found := FindItem(old(db.cartItems), itemId, cartId);
      && (found.None? ==> r == Err("Item not found in cart") && db.State() == old(db.State()))
      && (found.Some? && quantity <= 0 ==>
            db.State() == old(db.State()).(cartItems := Select(old(db.cartItems), NotWithId(itemId)))
            && r == Ok(ViewOf(cartId, db.cartItems, db.books)))
      && (found.Some? && quantity > 0 ==>
            var row := old(db.cartItems)[found.value];
            if quantity > old(db.books[row.bookId]).stockQuantity then
              r == Err("Insufficient stock") && db.State() == old(db.State())
            else
              db.State() == old(db.State()).(cartItems := old(db.cartItems)[found.value := row.(quantity := quantity)])
              && r == Ok(ViewOf(cartId, db.cartItems, db.books)))
  {
    if userId !in db.carts {
      return Err("Cart not found");
    }
    var cartId := db.carts[userId];
    var found := FindItem(db.cartItems, itemId, cartId);
    if found.None? {
      return Err("Item not found in cart");
    }
    var row := db.cartItems[found.value];
    if quantity <= 0 {
      SelectKeepsUnique(db.cartItems, NotWithId(itemId));
      db.cartItems := Select(db.cartItems, NotWithId(itemId));
    } else {
      if quantity > db.books[row.bookId].stockQuantity {
        return Err("Insufficient stock");
      }
      SetQuantityKeepsRules(db.cartItems, db.books, db.nextCartId, db.nextCartItemId, found.value, quantity);
      db.cartItems := db.cartItems[found.value := row.(quantity := quantity)];
    }
    r := Ok(ViewOf(cartId, db.cartItems, db.books));
  }

  /** Deletes the line with this id if it is in the user's own cart
      (cart.service.ts lines 175-189); any other id changes nothing. */
  method RemoveItem(db: Database, userId: int, itemId: int) returns (r: Result<CartView>)
    requires db.Valid()
    modifies db
    ensures db.Valid()
    ensures userId !in old(db.carts) ==> r == Err("Cart not found") && db.State() == old(db.State())
    ensures userId in old(db.carts) ==>
      var cartId := old(db.carts[userId]);
      && db.State() == old(db.State()).(cartItems := Select(old(db.cartItems), NotItemOfCart(itemId, cartId)))
      && r == Ok(ViewOf(cartId, db.cartItems, db.books))
  {
    if userId !in db.carts {
      return Err("Cart not found");
    }
    var cartId := db.carts[userId];
    SelectKeepsUnique(db.cartItems, NotItemOfCart(itemId, cartId));
    db.cartItems := Select(db.cartItems, NotItemOfCart(itemId, cartId));
    r := Ok(ViewOf(cartId, db.cartItems, db.books));
  }

  /** Deletes every line of the user's cart, if there is one, then answers
      with the cart as getCart does, which creates it when missing
      (cart.service.ts lines 194-206). */
  method ClearCart(db: Database, userId: int) returns (r: Result<CartView>)
    requires db.Valid()
    modifies db
    ensures db.Valid()
    ensures userId in old(db.carts) ==>
              && db.State() == old(db.State()).(cartItems := WithoutCart(old(db.cartItems), old(db.carts[userId])))
              && r == Ok(CartView(old(db.carts[userId]), [], 0, 0))
    ensures userId !in old(db.carts) && userId !in UserIds(old(db.users)) ==>
              r == Err(ForeignKeyViolated) && db.State() == old(db.State())
    ensures userId !in old(db.carts) && userId in UserIds(old(db.users)) ==>
              db.State() == WithCart(old(db.State()), userId) && r == Ok(CartView(old(db.nextCartId), [], 0, 0))
  {
    if userId in db.carts {
      var cartId := db.carts[userId];
      SelectKeepsUnique(db.cartItems, NotInCart(cartId));
      db.cartItems := WithoutCart(db.cartItems, cartId);
      ClearEmptiesOnlyThatCart(old(db.cartItems), cartId, cartId);
    }
    r := GetCart(db, userId);
  }

  /** Deleting the rows of one cart leaves that cart with no lines and every
      other cart's lines exactly as they were. */
  lemma {:induction false} ClearEmptiesOnlyThatCart(rows: seq<CartItem>, cartId: int, other: int)
    ensures CartRows(WithoutCart(rows, cartId), cartId) == []
    ensures other != cartId ==> CartRows(WithoutCart(rows, cartId), other) == CartRows(rows, other)
  {
    if rows != [] {
      ClearEmptiesOnlyThatCart(rows[1..], cartId, other);
      if rows[0].cartId == cartId {
        assert WithoutCart(rows, cartId) == WithoutCart(rows[1..], cartId);
      } else {
        var rest := WithoutCart(rows[1..], cartId);
        assert WithoutCart(rows, cartId) == [rows[0]] + rest;
        assert ([rows[0]] + rest)[1..] == rest;
      }
    }
  }

  /** Removing a line is idempotent, and removing an id that is not in the
      cart changes nothing. */
  lemma {:induction false} RemoveIsIdempotent(rows: seq<CartItem>, itemId: int, cartId: int)
    ensures Select(Select(rows, NotItemOfCart(itemId, cartId)), NotItemOfCart(itemId, cartId))
            == Select(rows, NotItemOfCart(itemId, cartId))
    ensures FindItem(rows, itemId, cartId).None? ==> Select(rows, NotItemOfCart(itemId, cartId)) == rows
  {
    if rows != [] {
      RemoveIsIdempotent(rows[1..], itemId, cartId);
      var s := NotItemOfCart(itemId, cartId);
      var rest := Select(rows[1..], s);
      if Selects(s, rows[0]) {
        assert Select(rows, s) == [rows[0]] + rest;
        assert ([rows[0]] + rest)[0] == rows[0];
        assert ([rows[0]] + rest)[1..] == rest;
        assert Select(Select(rows, s), s) == [rows[0]] + Select(rest, s);
        if FindItem(rows, itemId, cartId).None? {
          assert FindItem(rows[1..], itemId, cartId).None?;
          assert rows == [rows[0]] + rows[1..];
        }
      } else {
        assert Select(rows, s) == rest;
      }
    }
  }
}
