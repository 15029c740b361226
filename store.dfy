/** The database the services share: one map per table, keyed by id.

    `Valid()` collects the invariants every service keeps and relies on:
    every row is stored under its own id, ids are below the next fresh id,
    e-mails and category names are unique, a user has at most one cart, a
    cart holds at most one item per product, quantities are at least one, and
    every reference points at an existing row.  Uniqueness of e-mails and
    names and the one-item-per-product key mirror unique constraints the
    services query by; one cart per user is kept only by `getOrCreateCart`,
    which creates a cart just when `findFirst` finds none. */
module Db {
  import opened Model

  /** Row `k` of every table carries `k` as its id and ids are below `next`. */
  ghost predicate UsersValid(users: map<Id, User>, next: nat) {
    && (forall k :: k in users ==> users[k].id == k && k < next)
    && EmailsUnique(users)
  }

  /** No two users share an e-mail.  The quantifier fires only where a proof
      names the pair it compares, through `SameEmail`. */
  ghost predicate EmailsUnique(users: map<Id, User>) {
    forall a, b {:trigger SameEmail(users, a, b)} :: a in users && b in users && SameEmail(users, a, b) ==> a == b
  }

  predicate SameEmail(users: map<Id, User>, a: Id, b: Id)
    requires a in users && b in users
  {
    users[a].email == users[b].email
  }

  ghost predicate CategoriesValid(categories: map<Id, Category>, next: nat) {
    && (forall k :: k in categories ==> categories[k].id == k && k < next)
    && NamesUnique(categories)
  }

  /** No two categories share a name. */
  ghost predicate NamesUnique(categories: map<Id, Category>) {
    forall a, b {:trigger SameName(categories, a, b)} :: a in categories && b in categories && SameName(categories, a, b) ==> a == b
  }

  predicate SameName(categories: map<Id, Category>, a: Id, b: Id)
    requires a in categories && b in categories
  {
    categories[a].name == categories[b].name
  }

  ghost predicate ProductsValid(products: map<Id, Product>, categories: map<Id, Category>, next: nat) {
    forall k :: k in products ==>
      products[k].id == k && k < next && products[k].categoryId in categories
  }

  ghost predicate CartsValid(carts: map<Id, Cart>, users: map<Id, User>, next: nat) {
    && (forall k :: k in carts ==> carts[k].id == k && k < next && carts[k].userId in users)
    && OneCartPerUser(carts)
  }

  /** No user has two carts. */
  ghost predicate OneCartPerUser(carts: map<Id, Cart>) {
    forall a, b {:trigger SameOwner(carts, a, b)} :: a in carts && b in carts && SameOwner(carts, a, b) ==> a == b
  }

  predicate SameOwner(carts: map<Id, Cart>, a: Id, b: Id)
    requires a in carts && b in carts
  {
    carts[a].userId == carts[b].userId
  }

  ghost predicate CartItemsValid(items: map<Id, CartItem>, carts: map<Id, Cart>, products: map<Id, Product>, next: nat) {
    && (forall k :: k in items ==>
          && items[k].id == k && k < next && items[k].quantity >= 1
          && items[k].cartId in carts && items[k].productId in products)
    && UniquePerProduct(items)
  }

  /** The compound key (cartId, productId) of the cart-item table. */
  ghost predicate UniquePerProduct(items: map<Id, CartItem>) {
    forall a, b {:trigger SameLine(items, a, b)} :: a in items && b in items && SameLine(items, a, b) ==> a == b
  }

  predicate SameLine(items: map<Id, CartItem>, a: Id, b: Id)
    requires a in items && b in items
  {
    items[a].cartId == items[b].cartId && items[a].productId == items[b].productId
  }

  ghost predicate OrdersValid(orders: map<Id, Order>, users: map<Id, User>, next: nat) {
    forall k :: k in orders ==> orders[k].id == k && k < next && orders[k].userId in users
  }

  ghost predicate OrderItemsValid(items: map<Id, OrderItem>, orders: map<Id, Order>, products: map<Id, Product>, next: nat) {
    forall k :: k in items ==>
      && items[k].id == k && k < next && items[k].quantity >= 1
      && items[k].orderId in orders && items[k].productId in products
  }

  /** Handing out more ids keeps the user, category and cart tables valid. */
  lemma UsersValidMore(users: map<Id, User>, next0: nat, next: nat)
    requires UsersValid(users, next0) && next0 <= next
    ensures UsersValid(users, next)
  {
  }

  lemma CategoriesValidMore(categories: map<Id, Category>, next0: nat, next: nat)
    requires CategoriesValid(categories, next0) && next0 <= next
    ensures CategoriesValid(categories, next)
  {
  }

  lemma CartsValidMore(carts: map<Id, Cart>, users: map<Id, User>, next0: nat, next: nat)
    requires CartsValid(carts, users, next0) && next0 <= next
    ensures CartsValid(carts, users, next)
  {
  }

  /** Adding rows to the cart table keeps the references of the item table valid. */
  lemma CartItemsValidMoreCarts(items: map<Id, CartItem>, carts: map<Id, Cart>, carts': map<Id, Cart>, products: map<Id, Product>, next: nat)
    requires CartItemsValid(items, carts, products, next) && carts.Keys <= carts'.Keys
    ensures CartItemsValid(items, carts', products, next)
  {
  }

  /** A user without a cart may be given a cart with a fresh id. */
  lemma CartsValidNewCart(carts: map<Id, Cart>, users: map<Id, User>, next: nat, id: Id, userId: Id)
    requires CartsValid(carts, users, next) && id < next && id !in carts && userId in users
    requires forall c :: c in carts ==> carts[c].userId != userId
    ensures CartsValid(carts[id := Cart(id, userId)], users, next)
  {
    var carts' := carts[id := Cart(id, userId)];
    forall a, b | a in carts' && b in carts' && SameOwner(carts', a, b) ensures a == b {
      if a != id && b != id {
        assert SameOwner(carts, a, b);
      }
    }
  }

  /** Rewriting the quantity of an item keeps the item table valid. */
  lemma CartItemsValidSetQuantity(items: map<Id, CartItem>, carts: map<Id, Cart>, products: map<Id, Product>, next: nat, i: Id, q: nat)
    requires CartItemsValid(items, carts, products, next) && i in items && q >= 1
    ensures CartItemsValid(items[i := items[i].(quantity := q)], carts, products, next)
  {
    var items' := items[i := items[i].(quantity := q)];
    UniqueLinesKept(items, items');
  }

  /** Deleting items, or rewriting columns other than the compound key, keeps the key unique. */
  lemma UniqueLinesKept(items: map<Id, CartItem>, items': map<Id, CartItem>)
    requires UniquePerProduct(items) && items'.Keys <= items.Keys
    requires forall k :: k in items' ==> items'[k].cartId == items[k].cartId && items'[k].productId == items[k].productId
    ensures UniquePerProduct(items')
  {
    forall a, b | a in items' && b in items' && SameLine(items', a, b) ensures a == b {
      assert SameLine(items, a, b);
    }
  }

  /** A fresh item for a (cart, product) pair not yet in the table keeps it valid. */
  lemma CartItemsValidInsert(items: map<Id, CartItem>, carts: map<Id, Cart>, products: map<Id, Product>, next: nat, item: CartItem)
    requires CartItemsValid(items, carts, products, next)
    requires item.id < next && item.id !in items && item.quantity >= 1
    requires item.cartId in carts && item.productId in products
    requires forall k :: k in items ==> !(items[k].cartId == item.cartId && items[k].productId == item.productId)
    ensures CartItemsValid(items[item.id := item], carts, products, next)
  {
    var items' := items[item.id := item];
    forall a, b | a in items' && b in items' && SameLine(items', a, b) ensures a == b {
      if a != item.id && b != item.id {
        assert SameLine(items, a, b);
      }
    }
  }

  class Store {
    var users: map<Id, User>
    var categories: map<Id, Category>
    var products: map<Id, Product>
    var carts: map<Id, Cart>
    var cartItems: map<Id, CartItem>
    var orders: map<Id, Order>
    var orderItems: map<Id, OrderItem>
    /** The next id the database hands out; every id in use is below it. */
    var nextId: nat

    ghost predicate Valid()
      reads this
    {
      && UsersValid(users, nextId)
      && CategoriesValid(categories, nextId)
      && ProductsValid(products, categories, nextId)
      && CartsValid(carts, users, nextId)
      && CartItemsValid(cartItems, carts, products, nextId)
      && OrdersValid(orders, users, nextId)
      && OrderItemsValid(orderItems, orders, products, nextId)
    }

    constructor ()
      ensures Valid()
      ensures users == map[] && categories == map[] && products == map[] && carts == map[]
      ensures cartItems == map[] && orders == map[] && orderItems == map[]
    {
      users, categories, products, carts := map[], map[], map[], map[];
      cartItems, orders, orderItems := map[], map[], map[];
      nextId := 0;
    }

    /** Hands out an id that no row of any table uses. */
    method NewId() returns (id: Id)
      requires Valid()
      modifies this`nextId
      ensures Valid()
      ensures id == old(nextId) && nextId == id + 1
      ensures id !in users && id !in categories && id !in products && id !in carts
      ensures id !in cartItems && id !in orders && id !in orderItems
    {
      id := nextId;
      nextId := nextId + 1;
    }
  }
}
