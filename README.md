# micro-commerce service layer in Dafny

This project models the business rules of the micro-commerce back end: the
cart, checkout, catalogue, category, user and account services. The Prisma
database becomes an in-memory store. `Db.Store` is a class with one map per
table (users, categories, products, carts, cart items, orders, order items)
and a counter that hands out fresh ids.

`Db.Store.Valid()` is the invariant every service keeps and relies on:
- every row sits under its own id;
- e-mails are unique, and so are category names;
- a user has at most one cart;
- a cart has at most one item per product;
- every foreign key points at an existing row;
- cart items and order lines have a quantity of at least one.

Unique e-mails, unique names and one item per (cart, product) mirror the
unique keys the services look rows up by. Nothing in the database keeps a
user to one cart: `getOrCreateCart` keeps it, by creating a cart only when
`findFirst` finds none, and the model proves every operation preserves it.

Each service is one module, and its functions become module-level methods
on the store. Each method modifies only the tables the service writes, and
returns `Success(value)` or `Failure(error)`. There is one error
constructor per distinct message of the source, plus `StillReferenced`: it
stands for the database refusing a delete that other rows still refer to
(the assumed restrict action), which has no message in the services. Every
state-changing method keeps `Valid()`.

Modelling choices:
- Ids are natural numbers and money is integer cents.
- The clock is a `now` parameter.
- bcrypt and JWT are the function fields of a `Crypto` value. bcrypt's
  random salt is a parameter of `Register`.
- Case-insensitive text search is an abstract `contains` parameter.

Module layout:
- `model.dfy`: entities, errors and `Result`.
- `store.dfy`: the store and its invariants.
- `ordering.dfy`: a generic sort specification over a total preorder, and
  lexicographic string order.
- `cart_service.dfy`, `order_service.dfy`, `product_service.dfy`,
  `category_service.dfy`, `user_service.dfy` and `auth_service.dfy`: one
  per service file.

The checkout (`OrderService.CreateOrder`) is built in layers:
- `ReadCart` lists the cart and finds the first short item.
- `BuyAll` is the transaction's loop. It takes stock off and writes one line
  per item.
- `PlaceOrder` commits the four tables.
- `CheckedOut` names the relation between a listing of the cart and the new
  stock and order lines.

The functions `Drained`, `WithLines` and `WithoutCart` specify the new
tables. Lemmas about them give the promised properties: one line per item,
price snapshots, the total, exact stock decrements, and an empty cart
afterwards.

## Model

| member | source | states |
|---|---|---|
| Db.Store.Valid | micro_server/src/services/cartService.ts:14-44 | the invariant listed above: rows under their own ids below the next fresh id, unique e-mails and category names, one cart per user (kept by finding the cart before creating one), one item per (cart, product), quantities of at least one, and no dangling reference |
| Db.Store.NewId | micro_server/src/services/cartService.ts:30-31 | the autoincrement id of a created row: the id handed out is the counter's old value, no row of any table uses it, the counter grows by one and the invariant is kept |
| CartService.GetOrCreateCart | micro_server/src/services/cartService.ts:11-47 | returns the caller's cart; an existing cart is reused and the carts and ids stay as they were, otherwise exactly one empty cart owned by the caller is added under a fresh id; the caller's items are unchanged and are exactly the items of the returned cart; the one-cart-per-user invariant is kept |
| CartService.AddToCart | micro_server/src/services/cartService.ts:49-98 | succeeds iff the product exists and the quantity already held plus the new quantity is within its stock; a missing product gives NotFound(Product), too little stock gives InsufficientStock, and a failure changes no table (no cart is created); on success the caller holds exactly one item for the product, with quantity old + delta, within stock, and a cart is added only when the user had none |
| CartService.MergeItem | micro_server/src/services/cartService.ts:68-97 | with the cart found: an existing item for (cart, product) is raised to old + delta if that fits the stock and otherwise the add fails with InsufficientStock and the item keeps its quantity; without one a new item with the given quantity is created; the table keeps one item per (cart, product) |
| CartService.HeldAfterGetOrCreate | micro_server/src/services/cartService.ts:66 | finding or creating the cart does not change which items the caller holds for a product, nor their quantity |
| CartService.HeldIsItem | micro_server/src/services/cartService.ts:69-76 | with one cart per user and one item per (cart, product), an owned item of the product is the only one and its quantity is what the caller holds |
| CartService.HeldNone | micro_server/src/services/cartService.ts:91-97 | when the caller has no item of the product they hold nothing of it |
| CartService.UpdateCartItem | micro_server/src/services/cartService.ts:100-127 | an item not in the caller's cart gives NotFound(CartItem) and changes nothing; a quantity above the product's stock gives InsufficientStock and changes nothing; otherwise exactly that item's quantity is set, within stock |
| CartService.RemoveFromCart | micro_server/src/services/cartService.ts:129-144 | an item not in the caller's cart gives NotFound(CartItem) and changes nothing; otherwise exactly that item is removed |
| CartService.ClearCart | micro_server/src/services/cartService.ts:146-156 | the item table loses exactly the items of the caller's cart; a user without a cart changes nothing |
| CartService.ClearIsIdempotent | micro_server/src/services/cartService.ts:146-156 | clearing twice is clearing once, and a cleared cart has no items |
| CartService.ClearKeepsOtherCarts | micro_server/src/services/cartService.ts:152-154 | clearing one user's cart leaves every other user's items as they were |
| CartService.SumItems | micro_server/src/services/cartService.ts:161-164 | the running total over the items equals Σ price × quantity, and is 0 for no items |
| CartService.SubtotalRemove | micro_server/src/services/cartService.ts:161-164 | the sum does not depend on the order the items are visited in: any one item can be taken first |
| CartService.SubtotalSplit | micro_server/src/services/cartService.ts:161-164 | the total over two disjoint sets of items is the sum of their totals, so a cart's total adds up over any division of its lines |
| CartService.WithoutCartOf | micro_server/src/services/cartService.ts:152-154 | the item table keeps exactly the items outside the caller's cart, each unchanged |
| CartService.GetCartTotal | micro_server/src/services/cartService.ts:158-167 | creates the cart as getOrCreateCart does and returns Σ price × quantity over the caller's items, 0 for an empty cart |
| OrderService.CreateOrder | micro_server/src/services/orderService.ts:7-67 | a caller with a cart keeps the cart table as it was, and a caller without one gets exactly one new empty cart under a fresh id, on failure too; fails with EmptyCart iff the caller has no items; fails with InsufficientStockFor(name) iff the cart is non-empty and some item is over its product's stock, and then the name is that product's name; any failure leaves items, products, orders and order lines unchanged; on success the result is a PENDING order under a fresh id, owned by the caller, whose total is the cart's Σ price × quantity, added to the orders; the item table keeps exactly the items outside the caller's cart as it was before the call; products and order lines are the drained stock and the lines of some listing of the cart's items |
| OrderService.OrderCart | micro_server/src/services/orderService.ts:11-64 | the same checkout once the caller's cart exists, over that cart's items; a failure changes nothing at all |
| OrderService.ReadCart | micro_server/src/services/orderService.ts:9-23 | lists the cart's items once each, empty iff the cart is; reports no shortage iff every item is within its product's stock, otherwise the position of an item that is over; returns the cart's Σ price × quantity |
| OrderService.FindShortage | micro_server/src/services/orderService.ts:16-20 | finds none iff every listed item is within stock; otherwise the first listed item whose quantity is over its product's stock |
| OrderService.ListItems | micro_server/src/services/orderService.ts:9 | the cart's items as a list holding each item exactly once |
| OrderService.ListingBuyable | micro_server/src/services/orderService.ts:16-20 | a stock-checked listing of one cart's items can be bought in that order: the items are of distinct products, each within its stock |
| OrderService.OneProductOnce | micro_server/src/services/orderService.ts:37-56 | one item per (cart, product) makes a listing of a cart's items name each product at most once |
| OrderService.TakeFromStock | micro_server/src/services/orderService.ts:48-55 | the decrement takes exactly the item's quantity off its product and changes no other product |
| OrderService.Drained | micro_server/src/services/orderService.ts:47-55 | the stock after all decrements keeps every product row, and products not bought are unchanged |
| OrderService.DrainedStock | micro_server/src/services/orderService.ts:47-55 | every bought product's stock plus the item's quantity equals its stock before |
| OrderService.DrainedRows | micro_server/src/services/orderService.ts:47-55 | checkout changes no product column but the stock |
| OrderService.Line | micro_server/src/services/orderService.ts:38-45 | the line a cart item becomes carries the given id and order id, the item's product and quantity, and the product's current price |
| OrderService.LineCharges | micro_server/src/services/orderService.ts:38-45 | a line charges its price snapshot times its quantity, which is what the cart item costs at that price |
| OrderService.WithoutCart | micro_server/src/services/orderService.ts:59-61 | the item table keeps exactly the items of other carts, each unchanged |
| OrderService.WithLines | micro_server/src/services/orderService.ts:37-45 | the new line table holds the old lines and exactly one new id per listed item |
| OrderService.WithLinesShape | micro_server/src/services/orderService.ts:38-45 | each new line has the order's id, the item's product and quantity, and the product's price at checkout; old lines are kept |
| OrderService.WithLinesOfOrder | micro_server/src/services/orderService.ts:38-45 | the order's lines are exactly the new ones |
| OrderService.WithLinesSum | micro_server/src/services/orderService.ts:37-45 | the new lines' price snapshots times quantities add up to the listed items' total |
| OrderService.ListedSubtotal | micro_server/src/services/orderService.ts:23 | summed along a listing without repetitions the items add up to their subtotal |
| OrderService.BuyAll | micro_server/src/services/orderService.ts:37-56 | the loop over the listed items leaves the product table drained by each item and the line table with one line per item |
| OrderService.BuyListed | micro_server/src/services/orderService.ts:37-56 | the same loop over a stock-checked listing of one cart, which is buyable |
| OrderService.CheckoutValid | micro_server/src/services/orderService.ts:26-64 | the transaction keeps every table's invariants, including non-negative stock and lines pointing at the new order |
| OrderService.Checkout | micro_server/src/services/orderService.ts:26-64 | the transaction's new product and line tables, tied to Drained and WithLines, with every invariant kept |
| OrderService.PlaceOrder | micro_server/src/services/orderService.ts:26-64 | commits the transaction: the order is added under a fresh id with status PENDING; the products are drained, the lines added and the cart's items deleted, and there are no other changes |
| OrderService.CartIsUserItems | micro_server/src/services/orderService.ts:59-61 | the items of the caller's cart are the caller's items, and deleting the cart's items deletes exactly those |
| OrderService.CheckoutLines | micro_server/src/services/orderService.ts:37-45 | after checkout the order has exactly one line per cart item, and no other line is the order's |
| OrderService.CheckoutTotal | micro_server/src/services/orderService.ts:23-34 | the new order's lines add up to the cart's subtotal at the prices read with the cart, which is the order's total |
| OrderService.CheckoutStock | micro_server/src/services/orderService.ts:47-55 | each bought item's product loses exactly its quantity, products not in the cart are untouched, and no other column changes |
| OrderService.NewerFirstIsTotalPreorder | micro_server/src/services/orderService.ts:79 | ordering by createdAt descending is a total preorder |
| OrderService.GetUserOrders | micro_server/src/services/orderService.ts:69-81 | exactly the user's orders, each once, newest first |
| OrderService.GetAllOrders | micro_server/src/services/orderService.ts:130-149 | every order, each once, newest first |
| OrderService.UserOrdersOfAll | micro_server/src/services/orderService.ts:69-81 | a user's orders are the orders of the full list owned by that user, and there are no more of them |
| OrderService.CallerScope | micro_server/src/controllers/orderController.ts:54 | an admin passes no owner, anyone else passes their own id |
| OrderService.GetOrderById | micro_server/src/services/orderService.ts:83-110 | a found order is the stored order under that id |
| OrderService.OrderLookupScoped | micro_server/src/services/orderService.ts:83-110 | through the controller's scope a user finds an order iff it exists and is theirs; an admin finds any existing order |
| OrderService.OrderLookupUnscoped | micro_server/src/services/orderService.ts:87-92 | without an owner the lookup finds exactly the stored order with that id |
| OrderService.UpdateOrderStatus | micro_server/src/services/orderService.ts:112-128 | a missing order gives NotFound(Order) and changes nothing; otherwise the order is stored with the new status and nothing else changes |
| OrderService.StatusUpdateKeepsOrderLists | micro_server/src/services/orderService.ts:124-127 | after a status update a user's order list and the full list hold the updated order in place of the old one, and every other order as it was; no order joins or leaves a list |
| ProductService.CreateProduct | micro_server/src/services/productService.ts:32-50 | a missing category gives NotFound(Category) and creates nothing; otherwise exactly one product with the given columns and creation time is added under a fresh id |
| ProductService.ProductsValidInsert | micro_server/src/services/productService.ts:42-47 | a new product in an existing category keeps every table valid |
| ProductService.GetProductById | micro_server/src/services/productService.ts:102-111 | the stored product under that id, or none iff there is none |
| ProductService.Patched | micro_server/src/services/productService.ts:135-141 | each supplied column takes the given value, every other column and the id and creation time keep theirs |
| ProductService.PatchedLaws | micro_server/src/services/productService.ts:135-141 | an empty patch changes nothing, and patching twice is patching once |
| ProductService.ProductsValidUpdate | micro_server/src/services/productService.ts:135-141 | rewriting a product under an existing category keeps every table valid |
| ProductService.UpdateProduct | micro_server/src/services/productService.ts:113-144 | a missing product gives NotFound(Product), a supplied category that does not exist gives NotFound(Category), and both change nothing; otherwise exactly that product is patched |
| ProductService.DeleteProduct | micro_server/src/services/productService.ts:146-158 | a missing product gives NotFound(Product); a product still in a cart or an order gives StillReferenced; both change nothing; otherwise exactly that product is removed |
| ProductService.NewerProductFirstIsTotalPreorder | micro_server/src/services/productService.ts:86 | ordering by createdAt descending is a total preorder |
| ProductService.Catalogue | micro_server/src/services/productService.ts:59-88 | exactly the stored products matching the category, search and price filters, each once, newest first; its length is the count of matching products |
| ProductService.SkipIsProduct | micro_server/src/services/productService.ts:57 | the offset of a page is (page - 1) × limit |
| ProductService.SkipGrows | micro_server/src/services/productService.ts:57 | a later page starts at least one page further on |
| ProductService.CeilDivIsLeast | micro_server/src/services/productService.ts:97 | totalPages is the least number of pages that hold all matching products |
| ProductService.Window | micro_server/src/services/productService.ts:84-85 | skip and take: the rows from position skip on, as many as the limit or as remain, whichever is fewer |
| ProductService.GetProducts | micro_server/src/services/productService.ts:52-100 | returns the matching products from position (page - 1) × limit on, exactly min(limit, the number of matching products after that position) of them, so a full page while enough remain, a short last page, and none past the end; every returned product is stored and matches the filters; the pagination reports the page, the limit, the count of all matching products, and the ceiling of count / limit |
| ProductService.SkipWithinTotal | micro_server/src/services/productService.ts:84-97 | page `page` starts inside the listing exactly when it is at most the ceiling of count / limit |
| ProductService.PagesUpToTotalAreFull | micro_server/src/services/productService.ts:84-97 | a page holds at least one product iff its number is at most totalPages |
| ProductService.PagesDisjoint | micro_server/src/services/productService.ts:84-85 | two different pages share no product |
| ProductService.PageOfPosition | micro_server/src/services/productService.ts:84-97 | position k of the listing lies on page k / limit + 1, which is within totalPages |
| ProductService.EveryMatchOnAPage | micro_server/src/services/productService.ts:78-97 | every matching product appears on some page between 1 and totalPages |
| ProductService.PageNewestFirst | micro_server/src/services/productService.ts:86 | a page lists its products by createdAt descending |
| ProductService.LaterPagesOlder | micro_server/src/services/productService.ts:84-86 | every product on an earlier page is at least as new as every product on a later page |
| CategoryService.CategoriesValidInsert | micro_server/src/services/categoryService.ts:20-30 | a new category with an unused name keeps names unique |
| CategoryService.CreateCategory | micro_server/src/services/categoryService.ts:16-33 | a name used by any category gives NameTaken and changes nothing; otherwise exactly one category with the given name and description is added under a fresh id |
| CategoryService.ByNameIsTotalPreorder | micro_server/src/services/categoryService.ts:37 | ordering by name ascending is a total preorder |
| CategoryService.GetCategories | micro_server/src/services/categoryService.ts:35-41 | every category, each once, sorted by name ascending |
| CategoryService.CategoriesStrictlyByName | micro_server/src/services/categoryService.ts:35-41 | with unique names no two listed categories have the same name |
| CategoryService.GetCategoryById | micro_server/src/services/categoryService.ts:43-49 | the stored category under that id, or none iff there is none |
| CategoryService.CategoryPatched | micro_server/src/services/categoryService.ts:74-77 | supplied columns take the given value, others keep theirs, and the id is kept |
| CategoryService.CategoriesValidRename | micro_server/src/services/categoryService.ts:63-77 | renaming to a name no other category holds keeps names unique |
| CategoryService.UpdateCategory | micro_server/src/services/categoryService.ts:51-80 | a missing id gives NotFound(Category); a new name held by a different category gives NameTaken; both change nothing; keeping its own name is allowed; otherwise exactly that category is patched |
| CategoryService.CategoriesValidDelete | micro_server/src/services/categoryService.ts:91-105 | removing a category no product uses keeps names unique and leaves no product with a dangling category |
| CategoryService.DeleteCategory | micro_server/src/services/categoryService.ts:82-106 | a missing id gives NotFound(Category); a category some product uses gives CategoryNotEmpty; both change nothing; otherwise exactly that category is removed and every product's category still exists |
| UserService.GetUserById | micro_server/src/services/userService.ts:27-40 | the user's id, e-mail, names and role (a password-free record) iff the user exists; the auth service's getUserById (authService.ts lines 70-85) is the same function |
| UserService.UserPatched | micro_server/src/services/userService.ts:54-56 | supplied names and role take the given values, others keep theirs; the id, e-mail and password hash never change |
| UserService.UsersValidRewrite | micro_server/src/services/userService.ts:54-56 | rewriting a user without changing the e-mail keeps e-mails unique |
| UserService.UpdateUser | micro_server/src/services/userService.ts:42-67 | a missing id gives NotFound(User) and changes nothing; otherwise exactly that user is patched and returned without the password |
| UserService.UpdateUserRole | micro_server/src/services/userService.ts:88-113 | a missing id gives NotFound(User) and changes nothing; otherwise only that user's role changes, and it is returned without the password |
| UserService.RolePatchOnly | micro_server/src/services/userService.ts:100-103 | the role update is the general update with only the role supplied; a patch without a role keeps it; an empty patch changes nothing |
| UserService.UserPatchIdempotent | micro_server/src/services/userService.ts:54-56 | applying the same patch twice is applying it once |
| UserService.UsersValidDelete | micro_server/src/services/userService.ts:83-85 | removing a user who owns no cart and no order keeps every table valid |
| UserService.DeleteUser | micro_server/src/services/userService.ts:69-86 | a missing id gives NotFound(User); an administrator gives Forbidden; a user still owning a cart or orders gives StillReferenced; all three change nothing; otherwise exactly that user is removed |
| AuthService.UsersValidInsert | micro_server/src/services/authService.ts:28-43 | a new user with an unused e-mail keeps e-mails unique |
| AuthService.Register | micro_server/src/services/authService.ts:25-50 | a used e-mail gives EmailTaken and changes nothing; otherwise exactly one plain user is added under a fresh id, storing the hash of the password (not the plaintext); the answer is that user without the password, plus the token signed for its id and e-mail |
| AuthService.Login | micro_server/src/services/authService.ts:52-68 | succeeds iff some account with that e-mail accepts the password; every failure is InvalidCredentials, whether the e-mail is unknown or the password wrong; on success the answer is that user without the password, plus the token for its id and e-mail |
| AuthService.RegisteredCanLogIn | micro_server/src/services/authService.ts:36-43 | when compare accepts every password against its own hash, the password just registered logs in, whatever salt the hash drew |
| AuthService.WrongPasswordLogsInNobody | micro_server/src/services/authService.ts:55-61 | with unique e-mails, a password the account's hash rejects logs in as nobody |
| AuthService.ProfileWrittenAsIs | micro_server/src/services/authService.ts:87-112 | as written, every column present in the request body is written: names, e-mail, password and role |
| AuthService.ProfileBodyGrantsAdmin | micro_server/src/services/authService.ts:99-111 | a plain user who sends a role of ADMIN to their own profile comes out an administrator |
| AuthService.ProfileBodyStoresPlaintext | micro_server/src/services/authService.ts:99-111 | the same request can replace the stored hash with a plaintext password |
| AuthService.ProfileUpdated | micro_server/src/services/authService.ts:19-22 | the intended update changes only the first and last name; the id, e-mail, password hash and role are kept |
| AuthService.ProfileUpdatesAgreeOnDeclaredColumns | micro_server/src/services/authService.ts:19-22 | on a body holding only the declared columns, the code as written and the intended update give the same row |
| AuthService.UpdateProfile | micro_server/src/services/authService.ts:87-112 | a missing id gives NotFound(User) and changes nothing; otherwise only the caller's names change, the role is kept, and the user is returned without the password |

## Left out

- Concurrency and transaction isolation: each service call is one atomic step. The add-to-cart race and the stock check that runs before the transaction are outside the model.
- Floating point: `getCartTotal` converts prices with `Number(...)`. Prices and totals here are integer cents, so `minPrice`/`maxPrice` after `parseFloat` are cents too.
- Prisma `include`/`select` shaping: results carry no nested product, category or user. Only the password-free user view is modelled, as `PublicUser`.
- The HTTP layer: controllers, routes, status codes and Joi validation. Schema bounds appear only as preconditions: a quantity of at least one, and a category's new name not empty. `OrderService.UpdateOrderStatus` takes an `OrderStatus` value, so an unknown status string cannot be expressed. In the source the route and the controller pass such a string through unchecked and only the database's enum type rejects it; the test at micro_server/src/__tests__/orders.test.ts:290-298 expects a 400 answer for it.
- `page` and `limit` arrive already parsed and positive, as the query schema guarantees.
- bcrypt and JWT: `hash`, `compare` and `sign` are uninterpreted. `AuthService.Sound` is what `RegisteredCanLogIn` assumes of them. Token expiry and verification are not modelled.
- Image upload (Cloudinary, multer): external I/O.
- Text search: the case-insensitive `contains` is an abstract parameter of the listing.
- `getAllUsers` (userService.ts:12-25): users carry no `createdAt` here, so its ordering is not modelled.
- `updatedAt` columns: no operation reads them. Prisma fills `createdAt` from the clock; the `now` parameter stands for it.
- Register takes no role: `registerSchema` rejects one, so new accounts are plain users.
- `getCartTotal` inside `createOrder`: the checkout computes the same total with `CartService.SumItems` over the cart it has already read, instead of a second cart lookup.
- `UserService.UpdateUser` takes the declared `UpdateUserData` columns (names and role). Other columns an administrator might send in the body are not modelled.
- `UserService.DeleteUser` is refused with StillReferenced while the user owns a cart or orders. The database schema is not part of this model; the default referential action (restrict) is assumed. The source itself only guards against missing and admin users.
- `CategoryService.GetCategories` sorts names by code-point lexicographic order (`Ordering.LexLe`). `orderBy: { name: "asc" }` sorts by the database's collation, which the model does not know; code-point order stands in for it, and the contract promises only the order by `LexLe`.
- `ProductService.DeleteProduct` is refused with StillReferenced while cart items or order lines refer to the product, on the same assumption.
- `OrderService.CreateOrder` checks the first short item in the order it lists the cart. That listing order is the database's and is left open, so the contract names some short item, not necessarily the first one in any fixed order.

## Findings

| source | as written | input that shows it | evidently intended | confidence | as-written member | corrected member |
|---|---|---|---|---|---|---|
| micro_server/src/services/authService.ts:99-111 | `PATCH /auth/profile` has no validation, and `updateProfile` passes the whole request body to `prisma.user.update`; the declared `UpdateProfileData` type is erased at run time | a logged-in plain user sends `{ "role": "ADMIN" }` (or `{ "password": "x" }`) to their own profile | only `firstName` and `lastName` change; the role, e-mail and password hash stay | not executed; high (the route mounts no validator and the body goes straight to the update) | AuthService.ProfileWrittenAsIs, with AuthService.ProfileBodyGrantsAdmin and AuthService.ProfileBodyStoresPlaintext | AuthService.UpdateProfile (via AuthService.ProfileUpdated) |
