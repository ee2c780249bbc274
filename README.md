# Bookstore inventory, cart and checkout — a verified model

This project models the business core of a small online bookstore: the
service layer that sits between the HTTP router and the relational
datastore. The datastore is a `Database` object in `datastore.dfy`. It holds
these in-memory tables:

- books, keyed by id;
- carts, one per user, keyed by user id;
- cart items, as a sequence of rows in insertion order;
- orders, with their lines;
- users and administrators;
- the append-only stock ledger.

It also holds the autoincrement counters that hand out ids. Its invariant,
`Valid()` (that is, `TablesOk` of the current tables), states the rules
that every modelled operation keeps. Most of the first five are keys and
foreign keys of the schema, which is not part of this model and is
assumed. Distinct emails are kept only by registration's check
(server/services/user.service.ts:26-37). The sixth is a consequence of
how the modelled operations write stock, and the database does not
enforce it:

- cart ids are fresh and each cart belongs to a user;
- cart-item ids are unique, and so is the key (cart, book);
- every cart row and order line names an existing book;
- user ids, usernames and emails are pairwise distinct;
- administrator usernames are distinct;
- the stock ledger is consistent. Replaying each book's ledger rows from
  its initial stock, every row starts where the previous one ended and
  moves by its signed change. A sale row stores the negated quantity. A
  manual row stores the magnitude, with the sign in its type "in"/"out".
  The replay ends at the book's current stock. The book edit screen can
  break this rule (see "## Left out"), so it holds for the modelled
  operations only.

Every service call is one sequential step: a method that `modifies` the
database. Each method's postcondition gives the whole new state of the
tables, as a function of the old state (`db.State()`), and the answer. For
each error path it gives the message the service throws or returns, and
says that nothing changed, apart from the cart that `addItem` creates
before its checks. The datastore's own errors ("Record to update not
found", "Foreign key constraint violated") are stand-in texts, not the
datastore's exact messages.

- `types.dfy` (`Types`) holds the rows and records. Prices are integer
  cents.
- `response.dfy` (`Response`) holds the response envelopes and the page
  count.
- `cart_service.dfy` (`CartService`) covers get-or-create cart, add,
  change quantity, remove and clear, with the cart's totals.
- `order_service.dfy` (`OrderService`) covers checkout, order lookup and
  the order status change.
- `admin_service.dfy` (`AdminService`) covers staff login with flattened
  permissions, manual stock adjustment, the status overwrites and list
  paging.
- `user_service.dfy` (`UserService`) covers registration, login and
  lookup of active users.

Three points where the code behaves in a way a reader might not expect;
the model follows the code:

- **Quantities.** A cart line's quantity is not kept at 1 or more.
  `addItem` never checks that its quantity is positive
  (server/services/cart.service.ts:78-130). So the model allows any integer
  quantity in a line, and adding a negative quantity shrinks a line. Only
  `updateItemQuantity` treats a quantity of 0 or less specially: it
  deletes the line. Checkout does not reject such a line either
  (`OrderService.NegativeLinePassesCheckout`). A line with a negative
  quantity passes validation, raises its book's stock, lowers its sales
  count and makes the order total negative.
- **The cart after checkout.** Checkout does not destroy the cart. It
  deletes the cart's lines and keeps the cart row (server/services/order.service.ts:99-101).
- **When validation happens.** Stock and status are not checked inside
  the checkout transaction. The code validates before the transaction
  opens (server/services/order.service.ts:33-49). Because every call is
  modelled as one atomic step, the model cannot express a stock change
  between the validation and the transaction.

## Model

| member | source | states |
|---|---|---|
| Types.OrderStatus.Name | lib/types/index.ts:48 | each order state has its stored non-empty name ("pending", "paid", …) |
| Types.StatusNamesAreDistinct | lib/types/index.ts:48 | two order states store the same name exactly when they are the same state, so the status column tells them apart |
| Types.NatToString | server/services/order.service.ts:93 | the order id printed in a ledger remark is a non-empty string of decimal digits with no leading zero, and those digits spell the id |
| Response.Success | lib/utils/response.ts:10-16 | success is true; data and message are passed through unchanged; there is no error |
| Response.Error | lib/utils/response.ts:18-24 | success is false; message and error are as given; there is no data |
| Response.TotalPages | lib/utils/response.ts:39 | for a positive page size, ceil(total/pageSize): enough pages to hold total rows, one fewer would not, and 0 for no rows |
| Response.Paginated | lib/utils/response.ts:26-41 | success is true; data is unchanged; total, page and pageSize are echoed; totalPages is the ceiling above |
| Datastore.Select | server/services/cart.service.ts:184-186 | a delete-where keeps exactly the rows its where-clause spares, and no more rows than there were |
| Datastore.SelectKeepsUnique | server/services/cart.service.ts:199-203 | deleting cart rows never breaks the unique id and unique (cart, book) keys |
| Datastore.FindLine | server/services/cart.service.ts:104-108 | lookup by the compound key (cartId, bookId): the index found matches it, and it finds nothing exactly when no row matches |
| Datastore.FindItem | server/services/cart.service.ts:147-150 | lookup of a row by id within one cart: found exactly when such a row exists |
| Datastore.CartRowsDistinctBooks | server/services/cart.service.ts:104-108 | because (cart, book) is unique, the lines of one cart name pairwise distinct books |
| Datastore.AppendRowKeepsRules | server/services/cart.service.ts:121-130 | a new line with a fresh id, for a book the cart has no line for, keeps the table's rules |
| Datastore.SetQuantityKeepsRules | server/services/cart.service.ts:117-120 | changing a line's quantity keeps the table's rules |
| Datastore.ReplayIsRunningSum | server/services/admin.service.ts:468-478 | a consistent ledger accounts for the stock: the current stock is the initial stock plus the sum of the signed changes |
| Datastore.LedgerAppend | server/services/admin.service.ts:463-480 | a row that starts at the book's current stock, ends at before + signed change, and is stored as the new stock keeps the ledger consistent |
| CartService.TotalAmount | server/services/cart.service.ts:61-64 | the cart's amount, summed over its lines, is never negative when no price or quantity is |
| CartService.TotalItems | server/services/cart.service.ts:65 | the cart's item count is never negative when no quantity is, and is at least the number of lines when every quantity is at least 1 |
| CartService.TotalsOfReverse | server/services/cart.service.ts:61-65 | the cart's totals do not depend on the order its lines are listed in |
| CartService.ViewOf | server/services/cart.service.ts:40-72 | the cart shows its lines newest first, with their books; totalAmount is the sum of price × quantity and totalItems the sum of quantities over its lines; an empty cart shows no lines and zero totals |
| CartService.FreshCartIsEmpty | server/services/cart.service.ts:25-38 | a newly created cart has no lines |
| CartService.GetOrCreateCart | server/services/cart.service.ts:80-88 | the user's cart is returned, or created under the next cart id if missing; for a non-user it fails with no change |
| CartService.GetCart | server/services/cart.service.ts:9-73 | the cart view of the user's (possibly new) cart; a new cart is empty with zero totals |
| CartService.AddItem | server/services/cart.service.ts:78-133 | the cart is created first and stays created; then the add below happens |
| CartService.AddToCart | server/services/cart.service.ts:90-132 | fails "Book not found or not available" for a missing or inactive book, and "Insufficient stock" when the quantity exceeds stock, both with no change; an existing line for the book grows, and fails "Insufficient stock" with no change when the sum exceeds stock; otherwise one new line is appended |
| CartService.AddSucceeds | server/services/cart.service.ts:104-130 | an add that passes its checks either grows the cart's line for the book by the quantity or appends one new line under the next id, and answers with the new cart |
| CartService.AddKeepsRules | server/services/cart.service.ts:104-130 | adding to a cart keeps the cart-item table's rules: at most one line per (cart, book), unique ids |
| CartService.UpdateItemQuantity | server/services/cart.service.ts:138-170 | fails "Cart not found" or "Item not found in cart" (the item must be in the caller's own cart), with no change; a quantity ≤ 0 deletes the line; a quantity above stock fails "Insufficient stock" with no change; otherwise the line gets exactly that quantity |
| CartService.RemoveItem | server/services/cart.service.ts:175-189 | fails "Cart not found" with no change; otherwise deletes only the row with that id in the caller's cart |
| CartService.RemoveIsIdempotent | server/services/cart.service.ts:184-186 | removing an item twice is the same as once, and removing an id that is not in the cart changes nothing |
| CartService.ClearCart | server/services/cart.service.ts:194-206 | deletes every line of the user's cart and changes nothing else, books included; the answer is the empty cart |
| CartService.ClearEmptiesOnlyThatCart | server/services/cart.service.ts:199-203 | after clearing, that cart has no lines and every other cart's lines are exactly as before |
| Datastore.Database.CartLinesOf | server/services/order.service.ts:19-26 | the cart that checkout loads: no lines for a user without a cart; otherwise exactly one line per row of that cart |
| Datastore.CartLinesAreTheCart | server/services/order.service.ts:19-26 | each loaded line is a row of the user's cart, in table order, with that row's id, book and quantity and the book's current row |
| OrderService.LineError | server/services/order.service.ts:34-39 | a line can be sold exactly when its quantity is within its book's stock and the book's status is 1 |
| OrderService.FirstError | server/services/order.service.ts:33-40 | there is no error exactly when every line can be sold |
| OrderService.FirstErrorIsFirstFailing | server/services/order.service.ts:33-40 | the first line that cannot be sold decides the message |
| OrderService.ValidateLines | server/services/order.service.ts:33-40 | the validation loop reports the first failing line's message, or nothing |
| OrderService.OrderItemsOf | server/services/order.service.ts:59-63 | one order line per cart line, with the same book and quantity and the book's price at checkout |
| OrderService.OrderTotalIsCartTotal | server/services/order.service.ts:43-46 | the order lines' unit price × quantity sum to the cart total |
| OrderService.NewOrder | server/services/order.service.ts:51-64 | the new order is "pending", for the caller, with the given payment id and address, one line per cart line, and a totalAmount equal to the sum over its own lines |
| OrderService.OrderInfoOf | server/services/order.service.ts:106-120 | the returned order echoes the row, with each line's book title |
| OrderService.NegativeLinePassesCheckout | server/services/order.service.ts:33-81 | a line with a quantity below 1 on an active book passes validation, raises the book's stock, lowers its sales count and gives a negative order total |
| OrderService.Sold | server/services/order.service.ts:75-81 | selling a line takes its quantity off the stock and adds it to the sales count, so stock plus sales is unchanged; title, price and status stay |
| OrderService.ApplySales | server/services/order.service.ts:74-81 | selling the lines one after another keeps the set of books |
| OrderService.SalesEffect | server/services/order.service.ts:74-81 | with one line per book, each book in the cart loses exactly its line's quantity of stock and gains it in sales; every other book is unchanged |
| OrderService.CheckoutKeepsStockNonNegative | server/services/order.service.ts:33-81 | after validation, no book in the cart ends with negative stock |
| OrderService.SaleLog | server/services/order.service.ts:84-95 | the sale row has type "sale", change −quantity, before = the stock the line was loaded with, after = before − quantity, the new order's id and the system as operator |
| OrderService.SaleLogs | server/services/order.service.ts:74-96 | exactly one sale row per cart line, in line order |
| OrderService.SalesKeepLedger | server/services/order.service.ts:84-95 | checkout keeps the ledger consistent: each sale row starts at the book's stock at the moment it is written |
| OrderService.SaleStepKeepsLedger | server/services/order.service.ts:74-95 | selling one line whose book still has its loaded stock, with its sale row, keeps the ledger consistent |
| OrderService.RecordSales | server/services/order.service.ts:74-96 | the update loop leaves the books as ApplySales says and appends the sale rows; nothing else changes |
| OrderService.CheckoutKeepsRules | server/services/order.service.ts:49-104 | a checkout of one user's cart keeps every integrity rule, the ledger's included |
| OrderService.PlaceOrder | server/services/order.service.ts:49-104 | the transaction creates the order under the next id, sells every line with its ledger row, and empties the cart while keeping the cart row |
| OrderService.CreateOrder | server/services/order.service.ts:15-121 | a missing or empty cart fails "Cart is empty"; a line that cannot be sold fails with the first such line's message; either failure changes no table, even for lines that would have passed; otherwise the checkout above happens and its order is returned |
| OrderService.GetOrderById | server/services/order.service.ts:170-200 | finds the order exactly when it exists and either no owner filter is given (none or 0) or the caller owns it |
| OrderService.UpdateOrderStatus | server/services/order.service.ts:205-210 | sets the status with no transition check, and nothing else changes; a missing order fails |
| AdminService.FindAdmin | server/services/admin.service.ts:13-28 | lookup by username: found exactly when some administrator has that username |
| AdminService.PermissionsOfConcat | server/services/admin.service.ts:46-48 | the flattened permissions keep order: role after role, each role's keys in order |
| AdminService.Permissions | server/services/admin.service.ts:46-48 | a permission key is listed exactly when one of the administrator's roles grants it |
| AdminService.AdminLogin | server/services/admin.service.ts:30-37 | an administrator is admitted exactly when one has that username, is active and the password matches |
| AdminService.AdminInfoOf | server/services/admin.service.ts:45-51 | the answer is the row without its password, plus its roles' permission keys concatenated role after role, in order (Permissions), so exactly the keys its roles grant |
| AdminService.Login | server/services/admin.service.ts:12-52 | null with no change when refused; on success only that administrator's lastLoginAt changes, and the answer shows the row as loaded |
| AdminService.AdjustmentLog | server/services/admin.service.ts:468-479 | type "in" exactly when quantity > 0, else "out"; the change is the magnitude; after = before + quantity = before + the signed change; the operator is an administrator |
| AdminService.AdjustmentKeepsRules | server/services/admin.service.ts:460-480 | an adjustment by any amount, even one that drives the stock below zero, keeps every integrity rule, the ledger's included |
| AdminService.AdjustStock | server/services/admin.service.ts:460-482 | the stock becomes before + quantity and one ledger row is appended, nothing else changes, and {before, after} is returned |
| AdminService.AdjustedStockIsRecorded | server/services/admin.service.ts:460-480 | after an adjustment the book's stock is still its initial stock plus the signed changes on its ledger |
| AdminService.UpdateStock | server/services/admin.service.ts:456-483 | a missing book fails "Book not found" with no change; otherwise only that book's stock becomes before + quantity, exactly one ledger row is appended, and {before, after} is returned |
| AdminService.FindUser | server/services/admin.service.ts:290-293 | lookup by user id: found exactly when a user has that id |
| AdminService.SetStatusKeepsRules | server/services/admin.service.ts:289-294 | a status change keeps the user ids and the user table's rules |
| AdminService.UpdateUserStatus | server/services/admin.service.ts:289-294 | overwrites the user's status with any value, and nothing else changes; a missing user fails |
| AdminService.UpdateOrderStatus | server/services/admin.service.ts:354-359 | overwrites the order's status with any string, and nothing else changes; a missing order fails |
| AdminService.Skip | server/services/admin.service.ts:58 | the rows skipped are never negative for a page of 1 or more and a page size of 0 or more, and page 1 skips none |
| AdminService.PagesCoverEveryRow | server/services/admin.service.ts:57-88 | with skip = (page − 1) × pageSize, row i lies on page i / pageSize + 1, which is among 1 … totalPages, and on no other page; and the last page starts within the list |
| UserService.InfoOf | server/services/user.service.ts:89-101 | the user shown is the row without the password |
| UserService.FirstClash | server/services/user.service.ts:26-30 | the first user in table order whose username or email matches; none exactly when no user matches either |
| UserService.RegisterRefusal | server/services/user.service.ts:32-37 | registration is refused exactly when the username or the email is taken; the message is "Username already exists" exactly when the first clashing user has that username, and "Email already exists" otherwise |
| UserService.TakenUsernameIsReported | server/services/user.service.ts:26-37 | a taken username is reported as such when no earlier user holds the email |
| UserService.NewUser | server/services/user.service.ts:41-49 | the new row stores the username, email, full name and phone as given and the hashed password, is active and has no address yet |
| UserService.RegisterKeepsRules | server/services/user.service.ts:26-54 | registering under fresh credentials keeps usernames and emails pairwise distinct, and keeps the cart rules |
| UserService.AppendUserKeepsRules | server/services/user.service.ts:41-49 | a user with the next id and unused username and email keeps ids, usernames and emails pairwise distinct |
| UserService.Register | server/services/user.service.ts:24-66 | refused with no change when the username or the email is taken; otherwise exactly one user and one empty cart owned by that user are added, and the answer omits the password |
| UserService.FindByUsername | server/services/user.service.ts:72-74 | lookup by username: found exactly when some user has that username |
| UserService.Login | server/services/user.service.ts:71-102 | success exactly when the user exists, is active and the password matches; "Account is disabled" exactly for an inactive user; every other failure is "Invalid username or password"; a success carries the user without the password |
| UserService.WrongPasswordLooksLikeUnknownUser | server/services/user.service.ts:76-87 | a wrong password gets the same answer as an unknown username |
| UserService.DisabledIgnoresPassword | server/services/user.service.ts:80-87 | an inactive account is decided before the password: the answer is the same whatever password is tried |
| UserService.GetUserById | server/services/user.service.ts:107-124 | a user is found exactly when the row with that id has status 1, and the answer is that row without its password |

## Left out

- Response.TotalPages: requires a positive page size. A page size of 0 gives Infinity or NaN in JavaScript. A negative page size gives a count of 0 or less from `Math.ceil`. Neither case is modelled.
- Response.Paginated: requires a positive page size, for the same reason.
- Prices are integer cents. The source multiplies floating-point numbers made from decimal prices, and that rounding is not modelled.
- Concurrency is not modelled. Every service call is one atomic step, so races between the checkout validation and the transaction cannot be expressed.
- Timestamps are not modelled: the order date, the time a cart line was added, and the creation times. Table order stands in for "newest first".
- Admin login's clock is the parameter `now`.
- Database id generation is modelled as counters starting at 1. Order lines get no ids of their own.
- Password hashing and checking are function parameters, `hash` and `matches`. bcrypt is not modelled.
- The datastore's own failures are limited to two cases. An update of a missing row fails with "Record to update not found". Creating a cart for someone who is not a user fails with a foreign-key error. The schema is not part of this model, so that foreign key is assumed.
- A new user's status is modelled as 1. This default comes from the schema, which is not part of this model.
- The list queries are left out except for their paging arithmetic. These are getUserOrders, getAdmins, getUsers, getOrders, getBooks, getStockLogs, getOperationLogs and the dashboard statistics. Their meaning lies in text search, sorting and counting inside the database.
- logOperation and the book delete call are left out. They are single-row writes outside the inventory and checkout core.
- createBook and updateBook are left out (server/services/admin.service.ts:411-444). They write `stockQuantity` straight from the request, with no ledger row. createBook gives a new book any starting stock, and updateBook can overwrite a book's stock. Either breaks the ledger rule of `Valid()` (`LedgerOk`), so the model's ledger guarantees hold only while stock changes go through checkout and the stock adjustment.
- UserService.updateProfile is left out. It is a single-row write of profile fields (server/services/user.service.ts:129-137), outside the inventory and checkout core.
- Book fields that no core rule reads are left out: isbn, author, publisher, category, description and cover.
- An administrator's phone is left out of `Admin` and `AdminInfo`. Login returns it with the rest of the row (server/services/admin.service.ts:50-51), but no rule reads it.
