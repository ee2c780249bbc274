/** Value types of the bookstore: the rows of the datastore's tables and the
    records the services hand back (lib/types/index.ts). Money is held in
    integer cents so that every sum is exact. */
module Types {

  datatype Option<T> = None | Some(value: T)

  /** A service call either yields a value or fails with the message of the
      error it throws. */
  datatype Result<T> = Ok(value: T) | Err(message: string)

  /** The message the datastore reports when an update names a missing row. */
  const RecordNotFound: string := "Record to update not found"

  /** The message the datastore reports when a new row refers to a missing one. */
  const ForeignKeyViolated: string := "Foreign key constraint violated"

  /** Order states of lib/types/index.ts; the order table stores their names. */
  datatype OrderStatus = Pending | Paid | Shipped | Delivered | Cancelled
  {
    function Name(): (s: string)
      ensures |s| > 0
    {
      match this
      case Pending => "pending"
      case Paid => "paid"
      case Shipped => "shipped"
      case Delivered => "delivered"
      case Cancelled => "cancelled"
    }
  }

  /** The status column tells the states apart: different states store
      different names. */
  lemma StatusNamesAreDistinct(a: OrderStatus, b: OrderStatus)
    ensures a.Name() == b.Name() <==> a == b
  {
    if a != b {
      assert a.Name()[0] != b.Name()[0] || a.Name()[1] != b.Name()[1];
    }
  }

  /** Position of the first element, in table order, that satisfies p: the
      findFirst / findUnique of the datastore over one table. */
  function FindFirst<T>(xs: seq<T>, p: T -> bool): (r: Option<nat>)
    ensures r.Some? ==> r.value < |xs| && p(xs[r.value]) && forall i :: 0 <= i < r.value ==> !p(xs[i])
    ensures r.None? <==> forall i :: 0 <= i < |xs| ==> !p(xs[i])
  {
    if xs == [] then None
    else if p(xs[0]) then Some(0)
    else match FindFirst(xs[1..], p)
      case None => None
      case Some(k) => Some(k + 1)
  }

  /** A row of the book table (the id is its key in the table). Status 1 means
      the book is on sale. */
  datatype Book = Book(title: string, price: int, stockQuantity: int, salesCount: int, status: int)

  /** A row of the cart-item table. */
  datatype CartItem = CartItem(id: int, cartId: int, bookId: int, quantity: int)

  /** A cart line loaded together with its book row (CartItem of lib/types). */
  datatype CartLine = CartLine(id: int, bookId: int, quantity: int, book: Book)

  /** The cart as the cart service returns it (Cart of lib/types). */
  datatype CartView = CartView(id: int, items: seq<CartLine>, totalAmount: int, totalItems: int)

  /** A line of an order, with the unit price captured at checkout. */
  datatype OrderItem = OrderItem(bookId: int, quantity: int, unitPrice: int)

  /** A row of the order table, with its lines. */
  datatype Order = Order(userId: int, paymentId: Option<int>, totalAmount: int,
                         shippingAddress: string, status: string, items: seq<OrderItem>)

  datatype OrderItemInfo = OrderItemInfo(bookId: int, bookTitle: string, quantity: int, unitPrice: int)

  /** An order as the order service returns it (OrderInfo of lib/types). */
  datatype OrderInfo = OrderInfo(id: int, userId: int, totalAmount: int, status: string,
                                 shippingAddress: string, items: seq<OrderItemInfo>)

  /** Kinds of stock movement: a checkout sale, or a manual adjustment in or out. */
  datatype ChangeType = Sale | StockIn | StockOut
  {
    /** The string the ledger's changeType column stores. */
    function Name(): string
    {
      match this
      case Sale => "sale"
      case StockIn => "in"
      case StockOut => "out"
    }
  }

  datatype OperatorType = SystemOperator | AdminOperator

  /** A row of the append-only stock ledger. */
  datatype StockLog = StockLog(bookId: int, changeType: ChangeType, changeQuantity: int,
                               beforeQuantity: int, afterQuantity: int, relatedOrderId: Option<int>,
                               operatorId: Option<int>, operatorType: OperatorType, remark: Option<string>)

  /** A row of the user table; password holds the hash. Status 1 means active. */
  datatype User = User(id: int, username: string, password: string, email: string, fullName: string,
                       phone: Option<string>, address: Option<string>, city: Option<string>,
                       postalCode: Option<string>, status: int)

  /** A user as the services return it: every field but the password. */
  datatype UserInfo = UserInfo(id: int, username: string, email: string, fullName: string,
                               phone: Option<string>, address: Option<string>, city: Option<string>,
                               postalCode: Option<string>)

  /** An administrator role with the keys of the permissions it grants, in order. */
  datatype Role = Role(roleKey: string, permissionKeys: seq<string>)

  /** A row of the admin table with its roles; lastLoginAt is an abstract clock reading. */
  datatype Admin = Admin(id: int, username: string, password: string, email: string, fullName: string,
                         status: int, lastLoginAt: Option<int>, roles: seq<Role>)

  /** A logged-in administrator: the row without its password, plus the flattened permissions. */
  datatype AdminInfo = AdminInfo(id: int, username: string, email: string, fullName: string, status: int,
                                 lastLoginAt: Option<int>, roles: seq<Role>, permissions: seq<string>)

  /** The number a string of decimal digits spells, most significant digit first. */
  function DigitsValue(s: string): nat
    requires forall i :: 0 <= i < |s| ==> '0' <= s[i] <= '9'
  {
    if s == [] then 0 else 10 * DigitsValue(s[..|s| - 1]) + (s[|s| - 1] as int - '0' as int)
  }

  /** Decimal digits of n, as a template literal prints it: no leading zero,
      and the digits spell n. */
  function NatToString(n: nat): (s: string)
    ensures |s| > 0
    ensures forall i :: 0 <= i < |s| ==> '0' <= s[i] <= '9'
    ensures DigitsValue(s) == n
    ensures |s| > 1 ==> s[0] != '0'
  {
    var d := ['0', '1', '2', '3', '4', '5', '6', '7', '8', '9'][n % 10];
    assert d as int - '0' as int == n % 10;
    if n < 10 then [d]
    else
      var s := NatToString(n / 10) + [d];
      assert s[..|s| - 1] == NatToString(n / 10);
      s
  }
}
