/** The per-user shopping cart: created lazily, one item per (cart, product),
    stock checked whenever a quantity is written, total = Σ price × quantity. */
module CartService {
  import opened Model
  import opened Db

  // ---------------------------------------------------------------------------
  // Views of the cart tables
  // ---------------------------------------------------------------------------

  ghost predicate HasCart(carts: map<Id, Cart>, userId: Id) {
    exists c :: c in carts && carts[c].userId == userId
  }

  /** Item `i` exists and lies in a cart of `userId`. */
  predicate OwnedBy(items: map<Id, CartItem>, carts: map<Id, Cart>, userId: Id, i: Id) {
    i in items && items[i].cartId in carts && carts[items[i].cartId].userId == userId
  }

  /** The items of cart `cartId`. */
  function ItemsOf(items: map<Id, CartItem>, cartId: Id): set<Id> {
    set i | i in items && items[i].cartId == cartId
  }

  /** The items of the caller's cart. */
  function UserItems(items: map<Id, CartItem>, carts: map<Id, Cart>, userId: Id): set<Id> {
    set i | i in items && OwnedBy(items, carts, userId, i)
  }

  /** The items of the caller's cart for one product (at most one, by the compound key). */
  function UserItemsFor(items: map<Id, CartItem>, carts: map<Id, Cart>, userId: Id, productId: Id): set<Id> {
    set i | i in items && OwnedBy(items, carts, userId, i) && items[i].productId == productId
  }

  /** The quantity of `productId` already in the caller's cart (0 if none). */
  ghost function Held(items: map<Id, CartItem>, carts: map<Id, Cart>, userId: Id, productId: Id): nat {
    var s := UserItemsFor(items, carts, userId, productId);
    if s == {} then 0 else var i :| i in s; items[i].quantity
  }

  /** The item table with every item of the caller's cart removed. */
  function WithoutCartOf(items: map<Id, CartItem>, carts: map<Id, Cart>, userId: Id): (r: map<Id, CartItem>)
    ensures forall i :: i in r <==> i in items && !OwnedBy(items, carts, userId, i)
    ensures forall i :: i in r ==> r[i] == items[i]
  {
    map i | i in items && !OwnedBy(items, carts, userId, i) :: items[i]
  }

  lemma ClearIsIdempotent(items: map<Id, CartItem>, carts: map<Id, Cart>, userId: Id)
    ensures WithoutCartOf(WithoutCartOf(items, carts, userId), carts, userId) == WithoutCartOf(items, carts, userId)
    ensures UserItems(WithoutCartOf(items, carts, userId), carts, userId) == {}
  {
  }

  /** Clearing one user's cart keeps every item of every other user. */
  lemma ClearKeepsOtherCarts(items: map<Id, CartItem>, carts: map<Id, Cart>, userId: Id, other: Id)
    requires other != userId
    ensures UserItems(WithoutCartOf(items, carts, userId), carts, other) == UserItems(items, carts, other)
  {
  }

  // ---------------------------------------------------------------------------
  // Totals
  // ---------------------------------------------------------------------------

  ghost predicate Priced(ids: set<Id>, items: map<Id, CartItem>, products: map<Id, Product>) {
    forall i :: i in ids ==> i in items && items[i].productId in products
  }

  function LineAmount(item: CartItem, products: map<Id, Product>): Cents
    requires item.productId in products
  {
    products[item.productId].price * item.quantity
  }

  /** Σ price × quantity over the items `ids`. */
  ghost function Subtotal(ids: set<Id>, items: map<Id, CartItem>, products: map<Id, Product>): Cents
    requires Priced(ids, items, products)
    decreases ids
  {
    if ids == {} then 0
    else var i :| i in ids; LineAmount(items[i], products) + Subtotal(ids - {i}, items, products)
  }

  /** The sum does not depend on the order the items are visited in. */
  lemma {:induction false} SubtotalRemove(ids: set<Id>, items: map<Id, CartItem>, products: map<Id, Product>, j: Id)
    requires Priced(ids, items, products) && j in ids
    ensures Subtotal(ids, items, products) == LineAmount(items[j], products) + Subtotal(ids - {j}, items, products)
    decreases ids
  {
    var i :| i in ids && Subtotal(ids, items, products) == LineAmount(items[i], products) + Subtotal(ids - {i}, items, products);
    if i != j {
      SubtotalRemove(ids - {i}, items, products, j);
      SubtotalRemove(ids - {j}, items, products, i);
      assert ids - {i} - {j} == ids - {j} - {i};
    }
  }

  /** The running total of `getCartTotal`: visits every item once. */
  method SumItems(ids: set<Id>, items: map<Id, CartItem>, products: map<Id, Product>) returns (total: Cents)
    requires Priced(ids, items, products)
    ensures total == Subtotal(ids, items, products)
    ensures ids == {} ==> total == 0
  {
    total := 0;
    var todo := ids;
    while todo != {}
      invariant todo <= ids
      invariant total + Subtotal(todo, items, products) == Subtotal(ids, items, products)
      decreases |todo|
    {
      var i :| i in todo;
      SubtotalRemove(todo, items, products, i);
      total := total + products[items[i].productId].price * items[i].quantity;
      todo := todo - {i};
    }
  }

  /** The total over two disjoint sets of items is the sum of their totals,
      so a cart's total is the sum over any division of its lines. */
  lemma {:induction false} SubtotalSplit(a: set<Id>, b: set<Id>, items: map<Id, CartItem>, products: map<Id, Product>)
    requires a !! b && Priced(a + b, items, products)
    ensures Priced(a, items, products) && Priced(b, items, products)
    ensures Subtotal(a + b, items, products) == Subtotal(a, items, products) + Subtotal(b, items, products)
    decreases a
  {
    if a != {} {
      var j :| j in a;
      SubtotalRemove(a + b, items, products, j);
      SubtotalRemove(a, items, products, j);
      assert (a + b) - {j} == (a - {j}) + b;
      SubtotalSplit(a - {j}, b, items, products);
    } else {
      assert a + b == b;
    }
  }

  // ---------------------------------------------------------------------------
  // Operations
  // ---------------------------------------------------------------------------

  /** Finds the caller's cart, creating an empty one on first access. */
  method GetOrCreateCart(db: Store, userId: Id) returns (cart: Cart)
    requires db.Valid() && userId in db.users
    modifies db`carts, db`nextId
    ensures db.Valid()
    ensures cart.id in db.carts && db.carts[cart.id] == cart && cart.userId == userId
    ensures HasCart(old(db.carts), userId) ==> db.carts == old(db.carts) && db.nextId == old(db.nextId)
    ensures !HasCart(old(db.carts), userId) ==>
      cart.id !in old(db.carts) && db.carts == old(db.carts)[cart.id := cart]
    ensures UserItems(db.cartItems, db.carts, userId) == UserItems(db.cartItems, old(db.carts), userId)
    ensures forall i :: i in db.cartItems ==> (db.cartItems[i].cartId == cart.id <==> OwnedBy(db.cartItems, db.carts, userId, i))
  {
    if c :| c in db.carts && db.carts[c].userId == userId {
      cart := db.carts[c];
      forall i | i in db.cartItems && OwnedBy(db.cartItems, db.carts, userId, i) ensures db.cartItems[i].cartId == c {
        assert SameOwner(db.carts, c, db.cartItems[i].cartId);
      }
    } else {
      var id := db.NewId();
      cart := Cart(id, userId);
      CartsValidNewCart(db.carts, db.users, db.nextId, id, userId);
      CartItemsValidMoreCarts(db.cartItems, db.carts, db.carts[id := cart], db.products, db.nextId);
      db.carts := db.carts[id := cart];
    }
  }

  /** With one cart per user and one item per (cart, product), an owned item
      for the product is the only one, and its quantity is what is held. */
  lemma HeldIsItem(items: map<Id, CartItem>, carts: map<Id, Cart>, userId: Id, productId: Id, i: Id)
    requires OneCartPerUser(carts) && UniquePerProduct(items)
    requires OwnedBy(items, carts, userId, i) && items[i].productId == productId
    ensures UserItemsFor(items, carts, userId, productId) == {i}
    ensures Held(items, carts, userId, productId) == items[i].quantity
  {
    forall j | j in UserItemsFor(items, carts, userId, productId) ensures j == i {
      assert SameOwner(carts, items[i].cartId, items[j].cartId);
      assert SameLine(items, i, j);
    }
  }

  lemma HeldNone(items: map<Id, CartItem>, carts: map<Id, Cart>, userId: Id, productId: Id)
    requires forall i :: i in items && OwnedBy(items, carts, userId, i) ==> items[i].productId != productId
    ensures UserItemsFor(items, carts, userId, productId) == {}
    ensures Held(items, carts, userId, productId) == 0
  {
  }

  lemma OverwriteMinus<V>(m: map<Id, V>, k: Id, v: V)
    ensures m[k := v] - {k} == m - {k}
  {
  }

  method AddToCart(db: Store, userId: Id, productId: Id, quantity: nat) returns (r: Result<CartItem>)
    requires db.Valid() && userId in db.users && quantity >= 1
    modifies db`carts, db`cartItems, db`nextId
    ensures db.Valid()
    ensures r.Success? <==>
      productId in old(db.products)
      && Held(old(db.cartItems), old(db.carts), userId, productId) + quantity <= old(db.products)[productId].stock
    ensures r.Failure? ==> unchanged(db)
    ensures r.Failure? ==>
      r.error == if productId !in old(db.products) then NotFound(ProductEntity) else InsufficientStock
    ensures r.Success? ==>
      && Merged(old(db.cartItems), db.cartItems, db.carts, userId, productId,
                Held(old(db.cartItems), old(db.carts), userId, productId) + quantity, r.value)
      && r.value.quantity <= db.products[productId].stock
      && (HasCart(old(db.carts), userId) ==> db.carts == old(db.carts))
      && (!HasCart(old(db.carts), userId) ==> db.carts == old(db.carts)[r.value.cartId := Cart(r.value.cartId, userId)])
  {
    if productId !in db.products {
      return Failure(NotFound(ProductEntity));
    }
    var product := db.products[productId];
    if product.stock < quantity {
      return Failure(InsufficientStock);
    }
    ghost var items0, carts0 := db.cartItems, db.carts;
    var cart := GetOrCreateCart(db, userId);
    HeldAfterGetOrCreate(items0, carts0, db.carts, userId, productId);
    r := MergeItem(db, cart, productId, quantity, product.stock);
  }

  /** `item` is the caller's only item for `productId`, it holds `quantity`,
      and every other row of the item table is as it was in `items0`. */
  ghost predicate Merged(items0: map<Id, CartItem>, items: map<Id, CartItem>, carts: map<Id, Cart>,
                         userId: Id, productId: Id, quantity: nat, item: CartItem) {
    && item.id in items && items[item.id] == item
    && item.productId == productId && item.quantity == quantity
    && UserItemsFor(items, carts, userId, productId) == {item.id}
    && items - {item.id} == items0 - {item.id}
    && (item.id in items0 ==> items0[item.id] == item.(quantity := items0[item.id].quantity))
  }

  /** Looking the cart up (or creating it) does not change what the caller holds. */
  lemma HeldAfterGetOrCreate(items: map<Id, CartItem>, carts0: map<Id, Cart>, carts: map<Id, Cart>, userId: Id, productId: Id)
    requires forall i :: i in items ==> items[i].cartId in carts0
    requires carts0.Keys <= carts.Keys && forall c :: c in carts0 ==> carts[c] == carts0[c]
    requires forall c :: c in carts && c !in carts0 ==> carts[c].userId == userId
    ensures UserItemsFor(items, carts, userId, productId) == UserItemsFor(items, carts0, userId, productId)
    ensures Held(items, carts, userId, productId) == Held(items, carts0, userId, productId)
  {
  }

  /** The merge step of `addToCart`: raise the quantity of the existing item for
      the product, re-checking the stock, or insert a new item. */
  method MergeItem(db: Store, cart: Cart, productId: Id, quantity: nat, stock: nat) returns (r: Result<CartItem>)
    requires db.Valid() && cart.id in db.carts && db.carts[cart.id] == cart
    requires forall i :: i in db.cartItems ==> (db.cartItems[i].cartId == cart.id <==> OwnedBy(db.cartItems, db.carts, cart.userId, i))
    requires productId in db.products && stock == db.products[productId].stock
    requires 1 <= quantity <= stock
    modifies db`cartItems, db`nextId
    ensures db.Valid()
    ensures r.Success? <==> Held(old(db.cartItems), db.carts, cart.userId, productId) + quantity <= stock
    ensures r.Failure? ==> r == Failure(InsufficientStock) && unchanged(db)
    ensures r.Success? ==>
      r.value.cartId == cart.id &&
      Merged(old(db.cartItems), db.cartItems, db.carts, cart.userId, productId,
             Held(old(db.cartItems), db.carts, cart.userId, productId) + quantity, r.value)
  {
    if i :| i in db.cartItems && db.cartItems[i].cartId == cart.id && db.cartItems[i].productId == productId {
      HeldIsItem(db.cartItems, db.carts, cart.userId, productId, i);
      var existing := db.cartItems[i];
      var newQuantity := existing.quantity + quantity;
      if stock < newQuantity {
        return Failure(InsufficientStock);
      }
      var item := existing.(quantity := newQuantity);
      CartItemsValidSetQuantity(db.cartItems, db.carts, db.products, db.nextId, i, newQuantity);
      OverwriteMinus(db.cartItems, i, item);
      db.cartItems := db.cartItems[i := item];
      HeldIsItem(db.cartItems, db.carts, cart.userId, productId, i);
      return Success(item);
    }
    HeldNone(db.cartItems, db.carts, cart.userId, productId);
    var id := db.NewId();
    var item := CartItem(id, cart.id, productId, quantity);
    CartItemsValidInsert(db.cartItems, db.carts, db.products, db.nextId, item);
    OverwriteMinus(db.cartItems, id, item);
    db.cartItems := db.cartItems[id := item];
    HeldIsItem(db.cartItems, db.carts, cart.userId, productId, id);
    r := Success(item);
  }

  method UpdateCartItem(db: Store, userId: Id, itemId: Id, quantity: nat) returns (r: Result<CartItem>)
    requires db.Valid() && quantity >= 1
    modifies db`cartItems
    ensures db.Valid()
    ensures !OwnedBy(old(db.cartItems), db.carts, userId, itemId) ==>
      r == Failure(NotFound(CartItemEntity)) && unchanged(db)
    ensures OwnedBy(old(db.cartItems), db.carts, userId, itemId) ==>
      var old_item := old(db.cartItems)[itemId];
      if db.products[old_item.productId].stock < quantity then
        r == Failure(InsufficientStock) && unchanged(db)
      else
        && r == Success(old_item.(quantity := quantity))
        && db.cartItems == old(db.cartItems)[itemId := r.value]
        && r.value.quantity <= db.products[r.value.productId].stock
  {
    if !(itemId in db.cartItems && db.cartItems[itemId].cartId in db.carts
         && db.carts[db.cartItems[itemId].cartId].userId == userId) {
      return Failure(NotFound(CartItemEntity));
    }
    var cartItem := db.cartItems[itemId];
    if db.products[cartItem.productId].stock < quantity {
      return Failure(InsufficientStock);
    }
    var item := cartItem.(quantity := quantity);
    CartItemsValidSetQuantity(db.cartItems, db.carts, db.products, db.nextId, itemId, quantity);
    db.cartItems := db.cartItems[itemId := item];
    r := Success(item);
  }

  method RemoveFromCart(db: Store, userId: Id, itemId: Id) returns (r: Result<()>)
    requires db.Valid()
    modifies db`cartItems
    ensures db.Valid()
    ensures !OwnedBy(old(db.cartItems), db.carts, userId, itemId) ==>
      r == Failure(NotFound(CartItemEntity)) && unchanged(db)
    ensures OwnedBy(old(db.cartItems), db.carts, userId, itemId) ==>
      r == Success(()) && db.cartItems == old(db.cartItems) - {itemId}
  {
    if !(itemId in db.cartItems && db.cartItems[itemId].cartId in db.carts
         && db.carts[db.cartItems[itemId].cartId].userId == userId) {
      return Failure(NotFound(CartItemEntity));
    }
    UniqueLinesKept(db.cartItems, db.cartItems - {itemId});
    db.cartItems := db.cartItems - {itemId};
    r := Success(());
  }

  /** Deletes the items of the caller's cart; a user without a cart is a no-op. */
  method ClearCart(db: Store, userId: Id)
    requires db.Valid()
    modifies db`cartItems
    ensures db.Valid()
    ensures db.cartItems == WithoutCartOf(old(db.cartItems), db.carts, userId)
    ensures !HasCart(db.carts, userId) ==> unchanged(db)
  {
    if c :| c in db.carts && db.carts[c].userId == userId {
      var items := map i | i in db.cartItems && db.cartItems[i].cartId != c :: db.cartItems[i];
      forall i | i in db.cartItems && OwnedBy(db.cartItems, db.carts, userId, i) ensures db.cartItems[i].cartId == c {
        assert SameOwner(db.carts, c, db.cartItems[i].cartId);
      }
      assert items == WithoutCartOf(db.cartItems, db.carts, userId);
      UniqueLinesKept(db.cartItems, items);
      db.cartItems := items;
    } else {
      assert WithoutCartOf(db.cartItems, db.carts, userId) == db.cartItems;
    }
  }

  /** Σ price × quantity over the caller's cart (creating the cart if needed). */
  method GetCartTotal(db: Store, userId: Id) returns (total: Cents)
    requires db.Valid() && userId in db.users
    modifies db`carts, db`nextId
    ensures db.Valid()
    ensures HasCart(old(db.carts), userId) ==> db.carts == old(db.carts) && db.nextId == old(db.nextId)
    ensures !HasCart(old(db.carts), userId) ==>
      exists c :: c !in old(db.carts) && db.carts == old(db.carts)[c := Cart(c, userId)]
    ensures UserItems(db.cartItems, db.carts, userId) == UserItems(db.cartItems, old(db.carts), userId)
    ensures Priced(UserItems(db.cartItems, db.carts, userId), db.cartItems, db.products)
    ensures total == Subtotal(UserItems(db.cartItems, db.carts, userId), db.cartItems, db.products)
    ensures UserItems(db.cartItems, db.carts, userId) == {} ==> total == 0
  {
    var cart := GetOrCreateCart(db, userId);
    assert UserItems(db.cartItems, db.carts, userId) == ItemsOf(db.cartItems, cart.id);
    total := SumItems(ItemsOf(db.cartItems, cart.id), db.cartItems, db.products);
  }
}
