/** Checkout and order reads.  `createOrder` turns the caller's cart into one
    PENDING order with a price-snapshotted line per cart item, takes the
    bought quantities off the stock and empties the cart, or fails and
    leaves the items, the stock and the orders as they were. */
module OrderService {
  import opened Model
  import opened Db
  import opened Ordering
  import opened CartService

  // ---------------------------------------------------------------------------
  // Order-line totals
  // ---------------------------------------------------------------------------

  /** The lines of order `orderId`. */
  function LinesOf(lines: map<Id, OrderItem>, orderId: Id): set<Id> {
    set j | j in lines && lines[j].orderId == orderId
  }

  // ---------------------------------------------------------------------------
  // Checkout
  // ---------------------------------------------------------------------------

  /** `s` lists the ids `ids`, each once: the array `cart.items` read with the cart. */
  predicate Listing(s: seq<Id>, ids: set<Id>) {
    Elems(s) == ids && Distinct(s)
  }

  /** No id is listed twice. */
  predicate Distinct(s: seq<Id>)
    decreases |s|
  {
    s == [] || (Distinct(s[..|s| - 1]) && s[|s| - 1] !in s[..|s| - 1])
  }

  /** In a list without repetitions, different positions hold different ids. */
  lemma {:induction false} DistinctIndices(s: seq<Id>, k: nat, l: nat)
    requires Distinct(s) && k < l < |s|
    ensures s[k] != s[l]
    decreases |s|
  {
    var t := s[..|s| - 1];
    if l < |s| - 1 {
      DistinctIndices(t, k, l);
    } else {
      assert s[k] == t[k];
    }
  }

  /** Moving one id from the ids still to list to the end of the list keeps
      every id listed or to list, and none listed twice. */
  lemma ListOne(s: seq<Id>, todo: set<Id>, ids: set<Id>, i: Id)
    requires Distinct(s) && Elems(s) !! todo && Elems(s) + todo == ids && i in todo
    ensures Distinct(s + [i]) && Elems(s + [i]) !! todo - {i} && Elems(s + [i]) + (todo - {i}) == ids
  {
    assert (s + [i])[..|s|] == s;
    assert Elems(s + [i]) == Elems(s) + {i};
  }

  /** Reads the items of a cart as a list, in an order the database chooses. */
  method ListItems(ids: set<Id>) returns (s: seq<Id>)
    ensures Listing(s, ids)
  {
    s := [];
    var todo := ids;
    while todo != {}
      invariant Distinct(s) && Elems(s) !! todo && Elems(s) + todo == ids
      decreases |todo|
    {
      var i :| i in todo;
      ListOne(s, todo, ids, i);
      s, todo := s + [i], todo - {i};
    }
  }

  /** The item asks for more than its product's stock. */
  predicate Short(item: CartItem, products: map<Id, Product>)
    requires item.productId in products
  {
    products[item.productId].stock < item.quantity
  }

  /** The stock check of `createOrder`: the first listed item whose quantity is over its product's stock, if any. */
  method FindShortage(s: seq<Id>, items: map<Id, CartItem>, products: map<Id, Product>) returns (r: Option<nat>)
    requires forall k :: 0 <= k < |s| ==> s[k] in items && items[s[k]].productId in products
    ensures r.None? <==> forall k :: 0 <= k < |s| ==> items[s[k]].quantity <= products[items[s[k]].productId].stock
    ensures r.Some? ==> r.value < |s| && products[items[s[r.value]].productId].stock < items[s[r.value]].quantity
    ensures r.Some? ==> forall k :: 0 <= k < r.value ==> items[s[k]].quantity <= products[items[s[k]].productId].stock
  {
    for k := 0 to |s|
      invariant forall j :: 0 <= j < k ==> items[s[j]].quantity <= products[items[s[j]].productId].stock
    {
      if products[items[s[k]].productId].stock < items[s[k]].quantity {
        return Some(k);
      }
    }
    r := None;
  }

  /** A listing of one cart's items that all pass the stock check may be bought in that order. */
  lemma ListingBuyable(s: seq<Id>, items: map<Id, CartItem>, carts: map<Id, Cart>, products: map<Id, Product>,
                       next: nat, cartId: Id)
    requires CartItemsValid(items, carts, products, next) && Listing(s, ItemsOf(items, cartId))
    requires forall k :: 0 <= k < |s| ==> s[k] in items && items[s[k]].quantity <= products[items[s[k]].productId].stock
    ensures Buyable(s, items, products)
  {
    assert forall k :: 0 <= k < |s| ==> s[k] in Elems(s);
    OneProductOnce(s, items, cartId);
  }

  /** The items of one cart are of distinct products, so a listing of them
      without repetitions names each product at most once. */
  lemma {:induction false} OneProductOnce(s: seq<Id>, items: map<Id, CartItem>, cartId: Id)
    requires UniquePerProduct(items) && Distinct(s)
    requires forall k :: 0 <= k < |s| ==> s[k] in items && items[s[k]].cartId == cartId
    ensures DistinctProducts(s, items)
    decreases |s|
  {
    if s != [] {
      var t, last := s[..|s| - 1], s[|s| - 1];
      assert forall k :: 0 <= k < |t| ==> t[k] == s[k];
      OneProductOnce(t, items, cartId);
      forall k | 0 <= k < |t| ensures items[t[k]].productId != items[last].productId {
        if items[t[k]].productId == items[last].productId {
          assert SameLine(items, t[k], last);
        }
      }
    }
  }

  /** The elements of a sequence of ids. */
  function Elems(s: seq<Id>): set<Id> {
    set x | x in s
  }

  /** `s` lists items of `items` for distinct products, each within its product's stock in `products`. */
  ghost predicate Buyable(s: seq<Id>, items: map<Id, CartItem>, products: map<Id, Product>) {
    && (forall k :: 0 <= k < |s| ==>
          && s[k] in items && items[s[k]].productId in products
          && items[s[k]].quantity <= products[items[s[k]].productId].stock)
    && DistinctProducts(s, items)
  }

  /** No product is listed twice. */
  predicate DistinctProducts(s: seq<Id>, items: map<Id, CartItem>)
    requires forall k :: 0 <= k < |s| ==> s[k] in items
    decreases |s|
  {
    s == [] ||
    var t := s[..|s| - 1];
    assert forall k :: 0 <= k < |t| ==> t[k] == s[k];
    DistinctProducts(t, items) && !Buys(t, items, items[s[|s| - 1]].productId)
  }

  /** A prefix of a list of distinct products lists distinct products. */
  lemma {:induction false} DistinctProductsPrefix(s: seq<Id>, items: map<Id, CartItem>, j: nat)
    requires (forall k :: 0 <= k < |s| ==> s[k] in items) && DistinctProducts(s, items) && j <= |s|
    ensures forall k :: 0 <= k < j ==> s[..j][k] in items
    ensures DistinctProducts(s[..j], items)
    decreases |s|
  {
    if j < |s| {
      var t := s[..|s| - 1];
      assert forall k :: 0 <= k < |t| ==> t[k] == s[k];
      DistinctProductsPrefix(t, items, j);
      assert t[..j] == s[..j];
    } else {
      assert s[..j] == s;
    }
  }

  /** `b` is the row `a` with perhaps another stock. */
  predicate SameButStock(a: Product, b: Product) {
    && a.id == b.id && a.name == b.name && a.description == b.description && a.price == b.price
    && a.categoryId == b.categoryId && a.imageUrl == b.imageUrl && a.createdAt == b.createdAt
  }

  /** `tx.product.update({ where: { id }, data: { stock: { decrement: quantity } } })`. */
  function TakeFromStock(products: map<Id, Product>, item: CartItem): (r: map<Id, Product>)
    requires item.productId in products && item.quantity <= products[item.productId].stock
    ensures r.Keys == products.Keys
    ensures r[item.productId].stock + item.quantity == products[item.productId].stock
    ensures forall p :: p in r && p != item.productId ==> r[p] == products[p]
  {
    products[item.productId := products[item.productId].(stock := products[item.productId].stock - item.quantity)]
  }

  /** The table without the items of cart `cartId`: `tx.cartItem.deleteMany({ where: { cartId } })`. */
  function WithoutCart(items: map<Id, CartItem>, cartId: Id): (r: map<Id, CartItem>)
    ensures forall i :: i in r <==> i in items && items[i].cartId != cartId
    ensures forall i :: i in r ==> r[i] == items[i]
  {
    map i | i in items && items[i].cartId != cartId :: items[i]
  }

  /** The line a cart item becomes: same product and quantity, the product's price copied. */
  function Line(id: Id, orderId: Id, item: CartItem, products: map<Id, Product>): (r: OrderItem)
    requires item.productId in products
    ensures r.id == id && r.orderId == orderId
    ensures r.productId == item.productId && r.quantity == item.quantity
    ensures r.price == products[item.productId].price
  {
    OrderItem(id, orderId, item.productId, item.quantity, products[item.productId].price)
  }

  /** Some listed item is of product `p`. */
  predicate Buys(s: seq<Id>, items: map<Id, CartItem>, p: Id)
    requires forall k :: 0 <= k < |s| ==> s[k] in items
  {
    exists k :: 0 <= k < |s| && items[s[k]].productId == p
  }

  /** The stock after `tx.product.update` has taken the quantity of each listed
      item, in turn, off its product. */
  function Drained(products: map<Id, Product>, items: map<Id, CartItem>, s: seq<Id>): (r: map<Id, Product>)
    requires Buyable(s, items, products)
    ensures r.Keys == products.Keys
    ensures forall p :: p in r && !Buys(s, items, p) ==> r[p] == products[p]
    decreases |s|
  {
    if s == [] then products
    else
      var t, last := s[..|s| - 1], items[s[|s| - 1]];
      assert forall k :: 0 <= k < |t| ==> t[k] == s[k];
      assert Buyable(t, items, products);
      TakeFromStock(Drained(products, items, t), last)
  }

  /** Checkout changes no column of a product but its stock. */
  lemma {:induction false} DrainedRows(products: map<Id, Product>, items: map<Id, CartItem>, s: seq<Id>)
    requires Buyable(s, items, products)
    ensures forall p :: p in products ==> SameButStock(products[p], Drained(products, items, s)[p])
    decreases |s|
  {
    if s != [] {
      var t := s[..|s| - 1];
      assert forall k :: 0 <= k < |t| ==> t[k] == s[k];
      DrainedRows(products, items, t);
    }
  }

  /** Each listed item's product has lost exactly that item's quantity. */
  lemma {:induction false} DrainedStock(products: map<Id, Product>, items: map<Id, CartItem>, s: seq<Id>)
    requires Buyable(s, items, products)
    ensures forall k :: 0 <= k < |s| ==>
      Drained(products, items, s)[items[s[k]].productId].stock + items[s[k]].quantity
      == products[items[s[k]].productId].stock
    decreases |s|
  {
    if s != [] {
      var t, last := s[..|s| - 1], items[s[|s| - 1]];
      assert Buyable(t, items, products);
      DrainedStock(products, items, t);
      forall k | 0 <= k < |s|
        ensures Drained(products, items, s)[items[s[k]].productId].stock + items[s[k]].quantity
             == products[items[s[k]].productId].stock
      {
        if k < |t| {
          assert t[k] == s[k];
          assert items[s[k]].productId != last.productId;
        }
      }
    }
  }

  /** The order-line table after `tx.orderItem.create` for each listed item in
      turn, the `k`-th getting the id `next0 + k`. */
  function WithLines(lines: map<Id, OrderItem>, s: seq<Id>, items: map<Id, CartItem>, products: map<Id, Product>,
                     orderId: Id, next0: nat): (r: map<Id, OrderItem>)
    requires forall k :: 0 <= k < |s| ==> s[k] in items && items[s[k]].productId in products
    ensures forall id :: id in r <==> id in lines || next0 <= id < next0 + |s|
    decreases |s|
  {
    if s == [] then lines
    else
      var t := s[..|s| - 1];
      WithLines(lines, t, items, products, orderId, next0)[next0 + |t| := Line(next0 + |t|, orderId, items[s[|s| - 1]], products)]
  }

  /** The new table holds the old lines and one line per listed item, the
      `k`-th item's line under the id `next0 + k`. */
  lemma {:induction false} WithLinesShape(lines: map<Id, OrderItem>, s: seq<Id>, items: map<Id, CartItem>,
                                          products: map<Id, Product>, orderId: Id, next0: nat)
    requires forall k :: 0 <= k < |s| ==> s[k] in items && items[s[k]].productId in products
    ensures forall k :: 0 <= k < |s| ==>
      WithLines(lines, s, items, products, orderId, next0)[next0 + k] == Line(next0 + k, orderId, items[s[k]], products)
    ensures forall id :: id in lines && !(next0 <= id < next0 + |s|) ==>
      WithLines(lines, s, items, products, orderId, next0)[id] == lines[id]
    decreases |s|
  {
    if s != [] {
      var t := s[..|s| - 1];
      WithLinesShape(lines, t, items, products, orderId, next0);
      forall k | 0 <= k < |t|
        ensures WithLines(lines, s, items, products, orderId, next0)[next0 + k] == Line(next0 + k, orderId, items[s[k]], products)
      {
        assert t[k] == s[k];
      }
    }
  }

  /** The ids `lo`, ..., `hi - 1`. */
  function Range(lo: nat, hi: nat): (r: set<Id>)
    ensures forall id :: id in r <==> lo <= id < hi
    decreases hi
  {
    if hi <= lo then {} else Range(lo, hi - 1) + {hi - 1}
  }

  /** The new lines, and only they, are lines of the order. */
  lemma {:induction false} WithLinesOfOrder(lines: map<Id, OrderItem>, s: seq<Id>, items: map<Id, CartItem>,
                                            products: map<Id, Product>, orderId: Id, next0: nat)
    requires forall k :: 0 <= k < |s| ==> s[k] in items && items[s[k]].productId in products
    requires LinesOf(lines, orderId) == {} && forall id :: id in lines ==> id < next0
    ensures LinesOf(WithLines(lines, s, items, products, orderId, next0), orderId) == Range(next0, next0 + |s|)
    decreases |s|
  {
    var r := WithLines(lines, s, items, products, orderId, next0);
    if s == [] {
      assert LinesOf(r, orderId) == {};
    } else {
      var t := s[..|s| - 1];
      var id := next0 + |t|;
      WithLinesOfOrder(lines, t, items, products, orderId, next0);
      assert LinesOf(r, orderId) == LinesOf(WithLines(lines, t, items, products, orderId, next0), orderId) + {id};
    }
  }

  /** Removing the last element of a list without repetitions removes it from its elements. */
  lemma ElemsInit(s: seq<Id>)
    requires s != [] && Distinct(s)
    ensures Elems(s[..|s| - 1]) == Elems(s) - {s[|s| - 1]}
    ensures s[|s| - 1] in Elems(s)
  {
    var t, i := s[..|s| - 1], s[|s| - 1];
    assert s == t + [i];
    forall x | x in Elems(s) && x != i ensures x in Elems(t) {
      var k :| 0 <= k < |s| && s[k] == x;
    }
  }

  /** Σ price × quantity over the listed items, at the prices in `products`. */
  function ListedTotal(s: seq<Id>, items: map<Id, CartItem>, products: map<Id, Product>): Cents
    requires forall k :: 0 <= k < |s| ==> s[k] in items && items[s[k]].productId in products
    decreases |s|
  {
    if s == [] then 0
    else ListedTotal(s[..|s| - 1], items, products) + LineAmount(items[s[|s| - 1]], products)
  }

  /** Σ price × quantity over the lines `lo`, ..., `hi - 1`. */
  function LinesSum(lines: map<Id, OrderItem>, lo: nat, hi: nat): Cents
    requires forall id :: lo <= id < hi ==> id in lines
    decreases hi
  {
    if hi <= lo then 0 else LinesSum(lines, lo, hi - 1) + LineValue(lines[hi - 1])
  }

  /** What one order line charges: its price snapshot times its quantity. */
  function LineValue(line: OrderItem): Cents {
    line.price * line.quantity
  }

  /** A line stored above `hi` does not change the sum of the lines below it. */
  lemma {:induction false} LinesSumFrame(lines: map<Id, OrderItem>, lo: nat, hi: nat, id: Id, line: OrderItem)
    requires (forall j :: lo <= j < hi ==> j in lines) && hi <= id
    ensures LinesSum(lines[id := line], lo, hi) == LinesSum(lines, lo, hi)
    decreases hi
  {
    if lo < hi {
      LinesSumFrame(lines, lo, hi - 1, id, line);
    }
  }

  /** The new lines add up to the listed items' total at the prices read with the cart. */
  lemma {:induction false} WithLinesSum(lines: map<Id, OrderItem>, s: seq<Id>, items: map<Id, CartItem>,
                                        products: map<Id, Product>, orderId: Id, next0: nat)
    requires forall k :: 0 <= k < |s| ==> s[k] in items && items[s[k]].productId in products
    ensures LinesSum(WithLines(lines, s, items, products, orderId, next0), next0, next0 + |s|)
         == ListedTotal(s, items, products)
    decreases |s|
  {
    if s != [] {
      var t := s[..|s| - 1];
      var id := next0 + |t|;
      var before, line := WithLines(lines, t, items, products, orderId, next0), Line(id, orderId, items[s[|s| - 1]], products);
      assert WithLines(lines, s, items, products, orderId, next0) == before[id := line];
      WithLinesSum(lines, t, items, products, orderId, next0);
      LinesSumSnoc(before, next0, id, line);
      LineCharges(id, orderId, items[s[|s| - 1]], products);
    }
  }

  /** Storing one more line right above the range adds its value to the sum. */
  lemma LinesSumSnoc(lines: map<Id, OrderItem>, lo: nat, id: nat, line: OrderItem)
    requires (forall j :: lo <= j < id ==> j in lines) && lo <= id
    ensures LinesSum(lines[id := line], lo, id + 1) == LinesSum(lines, lo, id) + LineValue(line)
  {
    LinesSumFrame(lines, lo, id, id, line);
  }

  /** A line charges what its cart item costs at the price copied into it. */
  lemma LineCharges(id: Id, orderId: Id, item: CartItem, products: map<Id, Product>)
    requires item.productId in products
    ensures LineValue(Line(id, orderId, item, products)) == LineAmount(item, products)
  {
  }

  /** Summed along a listing without repetitions, the items add up to their subtotal. */
  lemma {:induction false} ListedSubtotal(s: seq<Id>, items: map<Id, CartItem>, products: map<Id, Product>)
    requires forall k :: 0 <= k < |s| ==> s[k] in items && items[s[k]].productId in products
    requires Distinct(s)
    ensures Priced(Elems(s), items, products)
    ensures ListedTotal(s, items, products) == Subtotal(Elems(s), items, products)
    decreases |s|
  {
    if s == [] {
      assert Elems(s) == {};
    } else {
      var t, i := s[..|s| - 1], s[|s| - 1];
      ListedSubtotal(t, items, products);
      ElemsInit(s);
      SubtotalRemove(Elems(s), items, products, i);
    }
  }

  /** Buying the next listed item takes its quantity off the stock left by the earlier ones. */
  lemma DrainedNext(s: seq<Id>, k: nat, items0: map<Id, CartItem>, products0: map<Id, Product>)
    requires Buyable(s, items0, products0) && k < |s|
    ensures Buyable(s[..k], items0, products0) && Buyable(s[..k + 1], items0, products0)
    ensures items0[s[k]].productId in Drained(products0, items0, s[..k])
    ensures items0[s[k]].quantity <= Drained(products0, items0, s[..k])[items0[s[k]].productId].stock
    ensures Drained(products0, items0, s[..k + 1]) == TakeFromStock(Drained(products0, items0, s[..k]), items0[s[k]])
  {
    var u := s[..k + 1];
    DistinctProductsPrefix(s, items0, k + 1);
    assert u[..|u| - 1] == s[..k] && u[|u| - 1] == s[k];
    assert forall j :: 0 <= j < k ==> s[..k][j] == s[j];
  }

  /** Buying the next listed item adds its line under the next id. */
  lemma WithLinesNext(s: seq<Id>, k: nat, items0: map<Id, CartItem>, products0: map<Id, Product>,
                      lines0: map<Id, OrderItem>, orderId: Id, next0: nat)
    requires forall k :: 0 <= k < |s| ==> s[k] in items0 && items0[s[k]].productId in products0
    requires k < |s|
    ensures WithLines(lines0, s[..k + 1], items0, products0, orderId, next0)
         == WithLines(lines0, s[..k], items0, products0, orderId, next0)[next0 + k := Line(next0 + k, orderId, items0[s[k]], products0)]
  {
    var u := s[..k + 1];
    assert u[..|u| - 1] == s[..k] && u[|u| - 1] == s[k];
  }

  /** The loop of the transaction over the listed cart items: for each, in
      turn, `tx.orderItem.create` with the next id and the price read with the
      cart, then `tx.product.update` decrementing the stock. */
  method BuyAll(s: seq<Id>, items0: map<Id, CartItem>, products0: map<Id, Product>, lines0: map<Id, OrderItem>,
                orderId: Id, next0: nat)
    returns (products: map<Id, Product>, lines: map<Id, OrderItem>)
    requires Buyable(s, items0, products0)
    ensures products == Drained(products0, items0, s)
    ensures lines == WithLines(lines0, s, items0, products0, orderId, next0)
  {
    products, lines := products0, lines0;
    for k := 0 to |s|
      invariant Buyable(s[..k], items0, products0)
      invariant products == Drained(products0, items0, s[..k])
      invariant lines == WithLines(lines0, s[..k], items0, products0, orderId, next0)
    {
      DrainedNext(s, k, items0, products0);
      WithLinesNext(s, k, items0, products0, lines0, orderId, next0);
      products := TakeFromStock(products, items0[s[k]]);
      lines := lines[next0 + k := Line(next0 + k, orderId, items0[s[k]], products0)];
    }
    assert s[..|s|] == s;
  }

  /** The loop over a stock-checked listing of one cart's items. */
  method BuyListed(s: seq<Id>, items0: map<Id, CartItem>, carts: map<Id, Cart>, products0: map<Id, Product>,
                   lines0: map<Id, OrderItem>, orderId: Id, cartId: Id)
    returns (products: map<Id, Product>, lines: map<Id, OrderItem>)
    requires CartItemsValid(items0, carts, products0, orderId) && Listing(s, ItemsOf(items0, cartId))
    requires forall k :: 0 <= k < |s| ==> s[k] in items0 && items0[s[k]].quantity <= products0[items0[s[k]].productId].stock
    ensures Buyable(s, items0, products0)
    ensures products == Drained(products0, items0, s)
    ensures lines == WithLines(lines0, s, items0, products0, orderId, orderId + 1)
  {
    ListingBuyable(s, items0, carts, products0, orderId, cartId);
    products, lines := BuyAll(s, items0, products0, lines0, orderId, orderId + 1);
  }

  /** Taking stock off products keeps the product table valid. */
  lemma DrainedValid(products0: map<Id, Product>, categories: map<Id, Category>, items0: map<Id, CartItem>,
                     s: seq<Id>, next0: nat, next: nat)
    requires ProductsValid(products0, categories, next0) && next0 <= next && Buyable(s, items0, products0)
    ensures ProductsValid(Drained(products0, items0, s), categories, next)
  {
    DrainedRows(products0, items0, s);
  }

  /** Deleting the cart's items keeps the item table valid. */
  lemma WithoutCartValid(items0: map<Id, CartItem>, carts: map<Id, Cart>, products0: map<Id, Product>,
                         products: map<Id, Product>, cartId: Id, next0: nat, next: nat)
    requires CartItemsValid(items0, carts, products0, next0) && next0 <= next && products0.Keys == products.Keys
    ensures CartItemsValid(WithoutCart(items0, cartId), carts, products, next)
  {
    UniqueLinesKept(items0, WithoutCart(items0, cartId));
  }

  /** The new order keeps the order table valid. */
  lemma NewOrderValid(orders0: map<Id, Order>, users: map<Id, User>, order: Order, next: nat)
    requires OrdersValid(orders0, users, order.id) && order.userId in users && order.id < next
    ensures OrdersValid(orders0[order.id := order], users, next)
  {
  }

  /** Lines for items of quantity at least one, of an existing order, under
      ids below `next`, keep the order-line table valid. */
  lemma {:induction false} NewLinesValid(lines0: map<Id, OrderItem>, orders0: map<Id, Order>, orders: map<Id, Order>,
                                         items0: map<Id, CartItem>, products0: map<Id, Product>, products: map<Id, Product>,
                                         s: seq<Id>, orderId: Id, next0: nat, next: nat)
    requires OrderItemsValid(lines0, orders0, products0, next0) && next0 + |s| <= next
    requires orders0.Keys <= orders.Keys && products0.Keys == products.Keys && orderId in orders
    requires forall k :: 0 <= k < |s| ==>
      s[k] in items0 && items0[s[k]].productId in products0 && items0[s[k]].quantity >= 1
    ensures OrderItemsValid(WithLines(lines0, s, items0, products0, orderId, next0), orders, products, next)
    decreases |s|
  {
    if s != [] {
      var t := s[..|s| - 1];
      assert forall k :: 0 <= k < |t| ==> t[k] == s[k];
      NewLinesValid(lines0, orders0, orders, items0, products0, products, t, orderId, next0, next);
    }
  }

  /** The lines of the new order keep the order-line table valid. */
  lemma CheckoutLinesValid(products0: map<Id, Product>, carts: map<Id, Cart>, items0: map<Id, CartItem>,
                           orders0: map<Id, Order>, lines0: map<Id, OrderItem>, s: seq<Id>, order: Order)
    requires CartItemsValid(items0, carts, products0, order.id) && OrderItemsValid(lines0, orders0, products0, order.id)
    requires Buyable(s, items0, products0)
    ensures OrderItemsValid(WithLines(lines0, s, items0, products0, order.id, order.id + 1),
                            orders0[order.id := order], Drained(products0, items0, s), order.id + 1 + |s|)
  {
    NewLinesValid(lines0, orders0, orders0[order.id := order], items0, products0, Drained(products0, items0, s),
                  s, order.id, order.id + 1, order.id + 1 + |s|);
  }

  /** Handing out ids up to `next` and adding an order of an existing user keep the other tables valid. */
  lemma CheckoutIdsValid(users: map<Id, User>, categories: map<Id, Category>, carts: map<Id, Cart>,
                         orders0: map<Id, Order>, order: Order, next: nat)
    requires UsersValid(users, order.id) && CategoriesValid(categories, order.id) && CartsValid(carts, users, order.id)
    requires OrdersValid(orders0, users, order.id) && order.userId in users && order.id < next
    ensures UsersValid(users, next) && CategoriesValid(categories, next) && CartsValid(carts, users, next)
    ensures OrdersValid(orders0[order.id := order], users, next)
  {
  }

  /** The transaction keeps every table valid. */
  lemma CheckoutValid(users: map<Id, User>, categories: map<Id, Category>, products0: map<Id, Product>,
                      carts: map<Id, Cart>, items0: map<Id, CartItem>, orders0: map<Id, Order>,
                      lines0: map<Id, OrderItem>, s: seq<Id>, order: Order, cartId: Id)
    requires UsersValid(users, order.id) && CategoriesValid(categories, order.id) && CartsValid(carts, users, order.id)
    requires OrdersValid(orders0, users, order.id) && order.userId in users
    requires ProductsValid(products0, categories, order.id) && Buyable(s, items0, products0)
    requires CartItemsValid(items0, carts, products0, order.id) && OrderItemsValid(lines0, orders0, products0, order.id)
    ensures UsersValid(users, order.id + 1 + |s|) && CategoriesValid(categories, order.id + 1 + |s|)
    ensures CartsValid(carts, users, order.id + 1 + |s|) && OrdersValid(orders0[order.id := order], users, order.id + 1 + |s|)
    ensures ProductsValid(Drained(products0, items0, s), categories, order.id + 1 + |s|)
    ensures CartItemsValid(WithoutCart(items0, cartId), carts, Drained(products0, items0, s), order.id + 1 + |s|)
    ensures OrderItemsValid(WithLines(lines0, s, items0, products0, order.id, order.id + 1),
                            orders0[order.id := order], Drained(products0, items0, s), order.id + 1 + |s|)
  {
    CheckoutIdsValid(users, categories, carts, orders0, order, order.id + 1 + |s|);
    DrainedValid(products0, categories, items0, s, order.id, order.id + 1 + |s|);
    WithoutCartValid(items0, carts, products0, Drained(products0, items0, s), cartId, order.id, order.id + 1 + |s|);
    CheckoutLinesValid(products0, carts, items0, orders0, lines0, s, order);
  }

  /** The transaction of `createOrder` computed on the tables as they were
      when it began, for the cart `cartId`, whose items `s` lists and which
      all passed the stock check: the order, then for each item in turn one
      order line and one stock decrement, then the deletion of the cart's items. */
  method Checkout(users: map<Id, User>, categories: map<Id, Category>, products0: map<Id, Product>,
                  carts: map<Id, Cart>, items0: map<Id, CartItem>, orders0: map<Id, Order>,
                  lines0: map<Id, OrderItem>, s: seq<Id>, order: Order, cartId: Id)
    returns (products: map<Id, Product>, lines: map<Id, OrderItem>)
    requires UsersValid(users, order.id) && CategoriesValid(categories, order.id) && CartsValid(carts, users, order.id)
    requires OrdersValid(orders0, users, order.id) && order.userId in users
    requires ProductsValid(products0, categories, order.id)
    requires CartItemsValid(items0, carts, products0, order.id) && OrderItemsValid(lines0, orders0, products0, order.id)
    requires Listing(s, ItemsOf(items0, cartId))
    requires forall k :: 0 <= k < |s| ==> s[k] in items0 && items0[s[k]].quantity <= products0[items0[s[k]].productId].stock
    ensures Buyable(s, items0, products0)
    ensures products == Drained(products0, items0, s)
    ensures lines == WithLines(lines0, s, items0, products0, order.id, order.id + 1)
    ensures UsersValid(users, order.id + 1 + |s|) && CategoriesValid(categories, order.id + 1 + |s|)
    ensures CartsValid(carts, users, order.id + 1 + |s|) && OrdersValid(orders0[order.id := order], users, order.id + 1 + |s|)
    ensures ProductsValid(products, categories, order.id + 1 + |s|)
    ensures CartItemsValid(WithoutCart(items0, cartId), carts, products, order.id + 1 + |s|)
    ensures OrderItemsValid(lines, orders0[order.id := order], products, order.id + 1 + |s|)
  {
    products, lines := BuyListed(s, items0, carts, products0, lines0, order.id, cartId);
    CheckoutValid(users, categories, products0, carts, items0, orders0, lines0, s, order, cartId);
  }

  /** The checkout of listing `s` of the items `ids`: every listed item can be
      bought, the stock `products'` is the old stock drained by the listing and
      the lines `lines'` are the old lines plus one per listed item, under
      consecutive ids after `orderId`. */
  ghost predicate CheckedOut(s: seq<Id>, ids: set<Id>, items: map<Id, CartItem>, products: map<Id, Product>,
                             lines: map<Id, OrderItem>, products': map<Id, Product>, lines': map<Id, OrderItem>, orderId: Id)
  {
    && Listing(s, ids)
    && Buyable(s, items, products)
    && products' == Drained(products, items, s)
    && lines' == WithLines(lines, s, items, products, orderId, orderId + 1)
  }

  /** `createOrder`'s transaction, committed: the four tables it writes are
      replaced together and the ids it handed out are used up. */
  method PlaceOrder(db: Store, userId: Id, cartId: Id, s: seq<Id>, total: Cents, now: nat) returns (order: Order)
    requires db.Valid() && userId in db.users
    requires Listing(s, ItemsOf(db.cartItems, cartId))
    requires forall k :: 0 <= k < |s| ==>
      s[k] in db.cartItems && db.cartItems[s[k]].quantity <= db.products[db.cartItems[s[k]].productId].stock
    modifies db`orders, db`orderItems, db`products, db`cartItems, db`nextId
    ensures db.Valid()
    ensures order == Order(old(db.nextId), userId, total, Pending, now) && order.id !in old(db.orders)
    ensures db.orders == old(db.orders)[order.id := order]
    ensures CheckedOut(s, ItemsOf(old(db.cartItems), cartId), old(db.cartItems), old(db.products), old(db.orderItems),
                       db.products, db.orderItems, order.id)
    ensures db.cartItems == WithoutCart(old(db.cartItems), cartId)
    ensures db.nextId == order.id + 1 + |s|
  {
    order := Order(db.nextId, userId, total, Pending, now);
    var products, lines := Checkout(db.users, db.categories, db.products, db.carts, db.cartItems, db.orders,
                                    db.orderItems, s, order, cartId);
    db.orders, db.orderItems, db.products, db.cartItems, db.nextId :=
      db.orders[order.id := order], lines, products, WithoutCart(db.cartItems, cartId), order.id + 1 + |s|;
  }

  /** A listing of one cart's items names existing items of existing products. */
  lemma ListedItemsPriced(s: seq<Id>, items: map<Id, CartItem>, carts: map<Id, Cart>, products: map<Id, Product>,
                          next: nat, cartId: Id)
    requires CartItemsValid(items, carts, products, next) && Listing(s, ItemsOf(items, cartId))
    ensures forall k :: 0 <= k < |s| ==> s[k] in items && items[s[k]].productId in products && s[k] in ItemsOf(items, cartId)
  {
    assert forall k :: 0 <= k < |s| ==> s[k] in Elems(s);
  }

  /** The caller's cart, once it exists, holds exactly the items of the user. */
  lemma CartIsUserItems(items: map<Id, CartItem>, carts: map<Id, Cart>, userId: Id, cartId: Id)
    requires forall i :: i in items ==> (items[i].cartId == cartId <==> OwnedBy(items, carts, userId, i))
    ensures ItemsOf(items, cartId) == UserItems(items, carts, userId)
    ensures WithoutCart(items, cartId) == WithoutCartOf(items, carts, userId)
  {
  }

  /** The lines of the new order are exactly the ones checkout adds: one per
      listed item, under the ids that follow the order's own. */
  lemma CheckoutLines(lines0: map<Id, OrderItem>, orders0: map<Id, Order>, products0: map<Id, Product>,
                      items0: map<Id, CartItem>, s: seq<Id>, orderId: Id)
    requires OrderItemsValid(lines0, orders0, products0, orderId) && orderId !in orders0
    requires forall k :: 0 <= k < |s| ==> s[k] in items0 && items0[s[k]].productId in products0
    ensures LinesOf(WithLines(lines0, s, items0, products0, orderId, orderId + 1), orderId) == Range(orderId + 1, orderId + 1 + |s|)
  {
    assert LinesOf(lines0, orderId) == {};
    WithLinesOfOrder(lines0, s, items0, products0, orderId, orderId + 1);
  }

  /** The new order's lines add up to the subtotal of the listed items at the
      prices read with the cart. */
  lemma CheckoutTotal(lines0: map<Id, OrderItem>, products0: map<Id, Product>,
                      items0: map<Id, CartItem>, s: seq<Id>, orderId: Id)
    requires forall k :: 0 <= k < |s| ==> s[k] in items0 && items0[s[k]].productId in products0
    requires Distinct(s)
    ensures Priced(Elems(s), items0, products0)
    ensures LinesSum(WithLines(lines0, s, items0, products0, orderId, orderId + 1), orderId + 1, orderId + 1 + |s|)
         == Subtotal(Elems(s), items0, products0)
  {
    WithLinesSum(lines0, s, items0, products0, orderId, orderId + 1);
    ListedSubtotal(s, items0, products0);
  }

  /** Checkout takes each bought item's quantity off its product's stock,
      leaves the products nobody bought as they were, and changes no other
      column of any product. */
  lemma CheckoutStock(products0: map<Id, Product>, items0: map<Id, CartItem>, s: seq<Id>)
    requires Buyable(s, items0, products0)
    ensures Drained(products0, items0, s).Keys == products0.Keys
    ensures forall i :: i in Elems(s) ==>
      Drained(products0, items0, s)[items0[i].productId].stock + items0[i].quantity == products0[items0[i].productId].stock
    ensures forall p :: p in products0 && (forall i :: i in Elems(s) ==> items0[i].productId != p) ==>
      Drained(products0, items0, s)[p] == products0[p]
    ensures forall p :: p in products0 ==> SameButStock(products0[p], Drained(products0, items0, s)[p])
  {
    DrainedStock(products0, items0, s);
    DrainedRows(products0, items0, s);
    forall i | i in Elems(s)
      ensures Drained(products0, items0, s)[items0[i].productId].stock + items0[i].quantity == products0[items0[i].productId].stock
    {
      var k :| 0 <= k < |s| && s[k] == i;
    }
    assert forall k :: 0 <= k < |s| ==> s[k] in Elems(s);
  }

  /** What `createOrder` reads before its transaction: the cart's items as a
      list, the first of them short of stock if any, and the cart's total. */
  method ReadCart(items: map<Id, CartItem>, carts: map<Id, Cart>, products: map<Id, Product>, next: nat, cartId: Id)
    returns (s: seq<Id>, short: Option<nat>, total: Cents)
    requires CartItemsValid(items, carts, products, next)
    ensures Listing(s, ItemsOf(items, cartId))
    ensures s == [] <==> ItemsOf(items, cartId) == {}
    ensures forall k :: 0 <= k < |s| ==> s[k] in items && items[s[k]].productId in products
    ensures short.None? <==> forall i :: i in ItemsOf(items, cartId) ==> !Short(items[i], products)
    ensures short.None? ==> forall k :: 0 <= k < |s| ==> items[s[k]].quantity <= products[items[s[k]].productId].stock
    ensures short.Some? ==> short.value < |s| && s[short.value] in ItemsOf(items, cartId) && Short(items[s[short.value]], products)
    ensures Priced(ItemsOf(items, cartId), items, products) && total == Subtotal(ItemsOf(items, cartId), items, products)
  {
    s := ListItems(ItemsOf(items, cartId));
    if s != [] {
      assert s[0] in Elems(s);
    }
    ListedItemsPriced(s, items, carts, products, next, cartId);
    short := FindShortage(s, items, products);
    if short.None? {
      forall i | i in ItemsOf(items, cartId) ensures !Short(items[i], products) {
        assert i in Elems(s);
        var k :| 0 <= k < |s| && s[k] == i;
      }
    } else {
      assert Short(items[s[short.value]], products);
    }
    total := SumItems(ItemsOf(items, cartId), items, products);
  }

  /** `createOrder`: fails with EmptyCart on an empty cart, then with the name
      of the first listed item's product whose stock is below the quantity,
      and otherwise places one PENDING order for the cart's total. */
  method CreateOrder(db: Store, userId: Id, now: nat) returns (r: Result<Order>)
    requires db.Valid() && userId in db.users
    modifies db`carts, db`orders, db`orderItems, db`products, db`cartItems, db`nextId
    ensures db.Valid()
    ensures HasCart(old(db.carts), userId) ==> db.carts == old(db.carts)
    ensures !HasCart(old(db.carts), userId) ==>
      exists c :: c !in old(db.carts) && db.carts == old(db.carts)[c := Cart(c, userId)]
    ensures r == Failure(EmptyCart) <==> UserItems(old(db.cartItems), old(db.carts), userId) == {}
    ensures r.Failure? ==> r.error.EmptyCart? || r.error.InsufficientStockFor?
    ensures r.Failure? ==>
      db.cartItems == old(db.cartItems) && db.products == old(db.products)
      && db.orders == old(db.orders) && db.orderItems == old(db.orderItems)
    ensures (r.Failure? && r.error.InsufficientStockFor?) <==>
      UserItems(old(db.cartItems), old(db.carts), userId) != {} &&
      exists i :: i in UserItems(old(db.cartItems), old(db.carts), userId) && Short(old(db.cartItems)[i], old(db.products))
    ensures r.Failure? && r.error.InsufficientStockFor? ==>
      exists i :: i in UserItems(old(db.cartItems), old(db.carts), userId) && Short(old(db.cartItems)[i], old(db.products))
        && r.error.product == old(db.products)[old(db.cartItems)[i].productId].name
    ensures r.Success? ==>
      && r.value == Order(old(db.nextId), userId, Subtotal(UserItems(old(db.cartItems), old(db.carts), userId), old(db.cartItems), old(db.products)), Pending, now)
      && r.value.id !in old(db.orders) && db.orders == old(db.orders)[r.value.id := r.value]
      && db.cartItems == WithoutCartOf(old(db.cartItems), old(db.carts), userId)
      && exists s :: CheckedOut(s, UserItems(old(db.cartItems), old(db.carts), userId), old(db.cartItems), old(db.products), old(db.orderItems),
                                db.products, db.orderItems, r.value.id)
  {
    var cart := GetOrCreateCart(db, userId);
    CartIsUserItems(db.cartItems, db.carts, userId, cart.id);
    r := OrderCart(db, userId, cart.id, now);
  }

  /** `createOrder` once the caller's cart `cartId` exists. */
  method OrderCart(db: Store, userId: Id, cartId: Id, now: nat) returns (r: Result<Order>)
    requires db.Valid() && userId in db.users
    modifies db`orders, db`orderItems, db`products, db`cartItems, db`nextId
    ensures db.Valid()
    ensures r == Failure(EmptyCart) <==> ItemsOf(old(db.cartItems), cartId) == {}
    ensures r.Failure? ==> r.error.EmptyCart? || r.error.InsufficientStockFor?
    ensures r.Failure? ==> unchanged(db)
    ensures (r.Failure? && r.error.InsufficientStockFor?) <==>
      ItemsOf(old(db.cartItems), cartId) != {} &&
      exists i :: i in ItemsOf(old(db.cartItems), cartId) && Short(old(db.cartItems)[i], old(db.products))
    ensures r.Failure? && r.error.InsufficientStockFor? ==>
      exists i :: i in ItemsOf(old(db.cartItems), cartId) && Short(old(db.cartItems)[i], old(db.products))
        && r.error.product == old(db.products)[old(db.cartItems)[i].productId].name
    ensures r.Success? ==>
      && r.value == Order(old(db.nextId), userId, Subtotal(ItemsOf(old(db.cartItems), cartId), old(db.cartItems), old(db.products)), Pending, now)
      && r.value.id !in old(db.orders) && db.orders == old(db.orders)[r.value.id := r.value]
      && db.cartItems == WithoutCart(old(db.cartItems), cartId)
      && exists s :: CheckedOut(s, ItemsOf(old(db.cartItems), cartId), old(db.cartItems), old(db.products), old(db.orderItems),
                                db.products, db.orderItems, r.value.id)
  {
    var s, short, total := ReadCart(db.cartItems, db.carts, db.products, db.nextId, cartId);
    if s == [] {
      return Failure(EmptyCart);
    }
    if short.Some? {
      return Failure(InsufficientStockFor(db.products[db.cartItems[s[short.value]].productId].name));
    }
    var order := PlaceOrder(db, userId, cartId, s, total, now);
    r := Success(order);
  }

  // ---------------------------------------------------------------------------
  // Order reads and the status update
  // ---------------------------------------------------------------------------

  /** `orderBy: { createdAt: "desc" }`: newer orders first. */
  predicate NewerFirst(a: Order, b: Order) {
    a.createdAt >= b.createdAt
  }

  lemma NewerFirstIsTotalPreorder()
    ensures TotalPreorder(NewerFirst)
  {
  }

  /** `getUserOrders`: every order of the user, each once, newest first. */
  ghost function GetUserOrders(orders: map<Id, Order>, userId: Id): (r: seq<Order>)
    ensures forall o :: o in r <==> o in orders.Values && o.userId == userId
    ensures forall i, j :: 0 <= i < j < |r| ==> r[i] != r[j]
    ensures forall i, j :: 0 <= i < j < |r| ==> r[i].createdAt >= r[j].createdAt
  {
    NewerFirstIsTotalPreorder();
    SortBy((set o | o in orders.Values && o.userId == userId), NewerFirst)
  }

  /** `getAllOrders`: every order, each once, newest first. */
  ghost function GetAllOrders(orders: map<Id, Order>): (r: seq<Order>)
    ensures forall o :: o in r <==> o in orders.Values
    ensures forall i, j :: 0 <= i < j < |r| ==> r[i] != r[j]
    ensures forall i, j :: 0 <= i < j < |r| ==> r[i].createdAt >= r[j].createdAt
  {
    NewerFirstIsTotalPreorder();
    SortBy(orders.Values, NewerFirst)
  }

  /** A user's order list is the full list with the other users' orders taken out: same orders, same length. */
  lemma UserOrdersOfAll(orders: map<Id, Order>, userId: Id)
    ensures forall o :: o in GetUserOrders(orders, userId) <==> o in GetAllOrders(orders) && o.userId == userId
    ensures |GetUserOrders(orders, userId)| <= |GetAllOrders(orders)|
  {
    NewerFirstIsTotalPreorder();
    var mine := set o | o in orders.Values && o.userId == userId;
    assert mine <= orders.Values;
    SubsetSmaller(mine, orders.Values);
  }

  lemma SubsetSmaller<T>(a: set<T>, b: set<T>)
    requires a <= b
    ensures |a| <= |b|
  {
    assert b == a + (b - a);
  }

  /** The `userId` the controller passes to `getOrderById`: none for an admin, the caller's own id otherwise. */
  function CallerScope(caller: User): (r: Option<Id>)
    ensures r.None? <==> caller.role == AdminRole
    ensures r.Some? ==> r.value == caller.id
  {
    if caller.role == AdminRole then None else Some(caller.id)
  }

  /** `getOrderById`: `findFirst` on the id, and on the owner when a `userId` is given. */
  function GetOrderById(orders: map<Id, Order>, orderId: Id, userId: Option<Id>): (r: Option<Order>)
    ensures r.Some? ==> orderId in orders && r.value == orders[orderId]
  {
    if orderId in orders && (userId.None? || orders[orderId].userId == userId.value) then Some(orders[orderId]) else None
  }

  /** A user sees an order only if it is theirs; an admin sees every order. */
  lemma OrderLookupScoped(orders: map<Id, Order>, orderId: Id, caller: User)
    ensures GetOrderById(orders, orderId, CallerScope(caller)).Some? <==>
      orderId in orders && (caller.role == AdminRole || orders[orderId].userId == caller.id)
  {
  }

  /** Every order the table holds is found by its id when no owner is given. */
  lemma OrderLookupUnscoped(orders: map<Id, Order>, orderId: Id)
    ensures GetOrderById(orders, orderId, None) == if orderId in orders then Some(orders[orderId]) else None
  {
  }

  /** `updateOrderStatus`: NotFound for a missing order, otherwise that order's status is set. */
  method UpdateOrderStatus(db: Store, orderId: Id, status: OrderStatus) returns (r: Result<Order>)
    requires db.Valid()
    modifies db`orders
    ensures db.Valid()
    ensures orderId !in old(db.orders) ==> r == Failure(NotFound(OrderEntity)) && unchanged(db)
    ensures orderId in old(db.orders) ==>
      && r == Success(old(db.orders)[orderId].(status := status))
      && db.orders == old(db.orders)[orderId := r.value]
  {
    if orderId !in db.orders {
      return Failure(NotFound(OrderEntity));
    }
    var order := db.orders[orderId].(status := status);
    db.orders := db.orders[orderId := order];
    r := Success(order);
  }

  /** A status update keeps every order in the lists it was in: the user's
      list and the full list hold the updated order in place of the old one
      and every other order as it was. */
  lemma StatusUpdateKeepsOrderLists(orders: map<Id, Order>, orderId: Id, status: OrderStatus, userId: Id)
    requires forall k :: k in orders ==> orders[k].id == k
    requires orderId in orders
    ensures forall o :: o in GetUserOrders(orders[orderId := orders[orderId].(status := status)], userId) <==>
      || (o in GetUserOrders(orders, userId) && o.id != orderId)
      || (o == orders[orderId].(status := status) && o.userId == userId)
    ensures forall o :: o in GetAllOrders(orders[orderId := orders[orderId].(status := status)]) <==>
      || (o in GetAllOrders(orders) && o.id != orderId)
      || o == orders[orderId].(status := status)
  {
    var orders' := orders[orderId := orders[orderId].(status := status)];
    forall o ensures o in orders'.Values <==> (o in orders.Values && o.id != orderId) || o == orders'[orderId] {
      if o in orders'.Values {
        var k :| k in orders' && orders'[k] == o;
        if k != orderId {
          assert o in orders.Values;
        }
      }
      if o in orders.Values && o.id != orderId {
        var k :| k in orders && orders[k] == o;
        assert orders'[k] == o;
      }
    }
  }
}
