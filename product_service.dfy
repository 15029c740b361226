/** The product catalogue: guarded writes on the product table and the
    paginated, filtered listing. */
module ProductService {
  import opened Model
  import opened Db
  import opened Ordering

  // ---------------------------------------------------------------------------
  // Writes
  // ---------------------------------------------------------------------------

  /** The body of `createProduct` (`CreateProductData`). */
  datatype NewProduct = NewProduct(
    name: string,
    description: Option<string>,
    price: Cents,
    stock: nat,
    categoryId: Id,
    imageUrl: Option<string>)

  /** The body of `updateProduct` (`UpdateProductData`): `None` leaves a column as it is. */
  datatype ProductPatch = ProductPatch(
    name: Option<string>,
    description: Option<string>,
    price: Option<Cents>,
    stock: Option<nat>,
    categoryId: Option<Id>,
    imageUrl: Option<string>)

  /** `prisma.product.update({ data })`: the supplied columns are written, the others kept. */
  function Patched(p: Product, u: ProductPatch): (r: Product)
    ensures r.id == p.id && r.createdAt == p.createdAt
    ensures r.name == (if u.name.Some? then u.name.value else p.name)
    ensures r.description == (if u.description.Some? then u.description else p.description)
    ensures r.price == (if u.price.Some? then u.price.value else p.price)
    ensures r.stock == (if u.stock.Some? then u.stock.value else p.stock)
    ensures r.categoryId == (if u.categoryId.Some? then u.categoryId.value else p.categoryId)
    ensures r.imageUrl == (if u.imageUrl.Some? then u.imageUrl else p.imageUrl)
  {
    Product(
      p.id,
      if u.name.Some? then u.name.value else p.name,
      if u.description.Some? then u.description else p.description,
      if u.price.Some? then u.price.value else p.price,
      if u.stock.Some? then u.stock.value else p.stock,
      if u.categoryId.Some? then u.categoryId.value else p.categoryId,
      if u.imageUrl.Some? then u.imageUrl else p.imageUrl,
      p.createdAt)
  }

  /** An empty patch changes nothing, and applying a patch twice is applying it once. */
  lemma PatchedLaws(p: Product, u: ProductPatch)
    ensures Patched(p, ProductPatch(None, None, None, None, None, None)) == p
    ensures Patched(Patched(p, u), u) == Patched(p, u)
  {
  }

  /** A new product with a fresh id keeps every table valid. */
  lemma ProductsValidInsert(products: map<Id, Product>, categories: map<Id, Category>, items: map<Id, CartItem>,
                            carts: map<Id, Cart>, lines: map<Id, OrderItem>, orders: map<Id, Order>, next: nat, p: Product)
    requires ProductsValid(products, categories, next) && CartItemsValid(items, carts, products, next)
    requires OrderItemsValid(lines, orders, products, next)
    requires p.id < next && p.categoryId in categories
    ensures ProductsValid(products[p.id := p], categories, next)
    ensures CartItemsValid(items, carts, products[p.id := p], next)
    ensures OrderItemsValid(lines, orders, products[p.id := p], next)
  {
  }

  /** `createProduct`: NotFound when the category does not exist, otherwise the new row. */
  method CreateProduct(db: Store, data: NewProduct, now: nat) returns (r: Result<Product>)
    requires db.Valid()
    modifies db`products, db`nextId
    ensures db.Valid()
    ensures data.categoryId !in db.categories ==> r == Failure(NotFound(CategoryEntity)) && unchanged(db)
    ensures data.categoryId in db.categories ==>
      && r.Success? && r.value.id !in old(db.products)
      && r.value == Product(r.value.id, data.name, data.description, data.price, data.stock,
                            data.categoryId, data.imageUrl, now)
      && db.products == old(db.products)[r.value.id := r.value]
  {
    if data.categoryId !in db.categories {
      return Failure(NotFound(CategoryEntity));
    }
    var id := db.NewId();
    var p := Product(id, data.name, data.description, data.price, data.stock, data.categoryId, data.imageUrl, now);
    ProductsValidInsert(db.products, db.categories, db.cartItems, db.carts, db.orderItems, db.orders, db.nextId, p);
    db.products := db.products[id := p];
    r := Success(p);
  }

  /** `getProductById`. */
  function GetProductById(products: map<Id, Product>, id: Id): (r: Option<Product>)
    ensures r.Some? <==> id in products
    ensures r.Some? ==> r.value == products[id]
  {
    if id in products then Some(products[id]) else None
  }

  /** Rewriting a row in place, under a category that exists, keeps every table valid. */
  lemma ProductsValidUpdate(products: map<Id, Product>, categories: map<Id, Category>, items: map<Id, CartItem>,
                            carts: map<Id, Cart>, lines: map<Id, OrderItem>, orders: map<Id, Order>, next: nat, p: Product)
    requires ProductsValid(products, categories, next) && CartItemsValid(items, carts, products, next)
    requires OrderItemsValid(lines, orders, products, next)
    requires p.id in products && p.categoryId in categories
    ensures ProductsValid(products[p.id := p], categories, next)
    ensures CartItemsValid(items, carts, products[p.id := p], next)
    ensures OrderItemsValid(lines, orders, products[p.id := p], next)
  {
  }

  /** `updateProduct`: NotFound for a missing product, then for a supplied
      category that does not exist; otherwise the supplied columns are written. */
  method UpdateProduct(db: Store, id: Id, u: ProductPatch) returns (r: Result<Product>)
    requires db.Valid()
    modifies db`products
    ensures db.Valid()
    ensures id !in old(db.products) ==> r == Failure(NotFound(ProductEntity)) && unchanged(db)
    ensures id in old(db.products) && u.categoryId.Some? && u.categoryId.value !in db.categories ==>
      r == Failure(NotFound(CategoryEntity)) && unchanged(db)
    ensures id in old(db.products) && (u.categoryId.Some? ==> u.categoryId.value in db.categories) ==>
      && r == Success(Patched(old(db.products)[id], u))
      && db.products == old(db.products)[id := r.value]
  {
    if id !in db.products {
      return Failure(NotFound(ProductEntity));
    }
    if u.categoryId.Some? && u.categoryId.value !in db.categories {
      return Failure(NotFound(CategoryEntity));
    }
    var p := Patched(db.products[id], u);
    ProductsValidUpdate(db.products, db.categories, db.cartItems, db.carts, db.orderItems, db.orders, db.nextId, p);
    db.products := db.products[id := p];
    r := Success(p);
  }

  /** Some cart item or order line refers to product `id`. */
  predicate ProductReferenced(items: map<Id, CartItem>, lines: map<Id, OrderItem>, id: Id) {
    (exists i :: i in items && items[i].productId == id) || (exists j :: j in lines && lines[j].productId == id)
  }

  /** `deleteProduct`: NotFound for a missing product; the database refuses to
      delete a product that cart items or order lines still refer to;
      otherwise exactly that row goes. */
  method DeleteProduct(db: Store, id: Id) returns (r: Result<()>)
    requires db.Valid()
    modifies db`products
    ensures db.Valid()
    ensures id !in old(db.products) ==> r == Failure(NotFound(ProductEntity)) && unchanged(db)
    ensures id in old(db.products) && ProductReferenced(db.cartItems, db.orderItems, id) ==>
      r == Failure(StillReferenced) && unchanged(db)
    ensures id in old(db.products) && !ProductReferenced(db.cartItems, db.orderItems, id) ==>
      r == Success(()) && db.products == old(db.products) - {id}
  {
    if id !in db.products {
      return Failure(NotFound(ProductEntity));
    }
    if ProductReferenced(db.cartItems, db.orderItems, id) {
      return Failure(StillReferenced);
    }
    db.products := db.products - {id};
    r := Success(());
  }

  // ---------------------------------------------------------------------------
  // The listing
  // ---------------------------------------------------------------------------

  /** The query of `getProducts`; `None` for a filter the request does not give. */
  datatype ProductFilters = ProductFilters(
    category: Option<Id>,
    search: Option<string>,
    minPrice: Option<Cents>,
    maxPrice: Option<Cents>)

  /** JavaScript truthiness of an optional number: absent and 0 are both false. */
  predicate Positive(n: Option<Cents>) {
    n.Some? && n.value != 0
  }

  /** The `where` clause of `getProducts`.  `contains` stands for the
      database's case-insensitive substring match. */
  predicate Matches(p: Product, f: ProductFilters, contains: (string, string) -> bool) {
    && (f.category.Some? ==> p.categoryId == f.category.value)
    && (Given(f.search) ==>
          contains(p.name, f.search.value) || (p.description.Some? && contains(p.description.value, f.search.value)))
    && (Positive(f.minPrice) ==> p.price >= f.minPrice.value)
    && (Positive(f.maxPrice) ==> p.price <= f.maxPrice.value)
  }

  /** `orderBy: { createdAt: "desc" }`: newer products first. */
  predicate NewerProductFirst(a: Product, b: Product) {
    a.createdAt >= b.createdAt
  }

  lemma NewerProductFirstIsTotalPreorder()
    ensures TotalPreorder(NewerProductFirst)
  {
  }

  /** Every matching product, newest first: the rows `findMany` pages through and `count` counts. */
  ghost function Catalogue(products: map<Id, Product>, f: ProductFilters, contains: (string, string) -> bool): (r: seq<Product>)
    ensures forall p :: p in r <==> p in products.Values && Matches(p, f, contains)
    ensures forall i, j :: 0 <= i < j < |r| ==> r[i] != r[j]
    ensures forall i, j :: 0 <= i < j < |r| ==> r[i].createdAt >= r[j].createdAt
    ensures |r| == |set p | p in products.Values && Matches(p, f, contains)|
  {
    NewerProductFirstIsTotalPreorder();
    SortBy((set p | p in products.Values && Matches(p, f, contains)), NewerProductFirst)
  }

  /** `Math.ceil(total / limit)` for a positive limit. */
  function CeilDiv(total: nat, limit: nat): (r: nat)
    requires limit >= 1
  {
    (total + limit - 1) / limit
  }

  /** The number of pages is the least number of `limit`-sized pages that hold `total` rows. */
  lemma CeilDivIsLeast(total: nat, limit: nat)
    requires limit >= 1
    ensures Skip(CeilDiv(total, limit) + 1, limit) >= total
    ensures CeilDiv(total, limit) == 0 || Skip(CeilDiv(total, limit), limit) < total
  {
    var q, m := (total + limit - 1) / limit, (total + limit - 1) % limit;
    assert total + limit - 1 == q * limit + m;
    SkipIsProduct(q + 1, limit);
    if q >= 1 {
      SkipIsProduct(q, limit);
      assert (q - 1) * limit == q * limit - limit;
    }
  }

  /** The rows before page `page`: `(page - 1) * limit`, counted one page at a time. */
  function Skip(page: nat, limit: nat): nat
    decreases page
  {
    if page <= 1 then 0 else Skip(page - 1, limit) + limit
  }

  lemma {:induction false} SkipIsProduct(page: nat, limit: nat)
    requires page >= 1
    ensures Skip(page, limit) == (page - 1) * limit
    decreases page
  {
    if page > 1 {
      SkipIsProduct(page - 1, limit);
      assert (page - 1) * limit == (page - 2) * limit + limit;
    }
  }

  /** A later page starts at least one page further on. */
  lemma {:induction false} SkipGrows(page: nat, page': nat, limit: nat)
    requires 1 <= page < page'
    ensures Skip(page, limit) + limit <= Skip(page', limit)
    decreases page'
  {
    if page + 1 < page' {
      SkipGrows(page, page' - 1, limit);
    }
  }

  /** Position `k` of the listing lies on page `k / limit + 1`, at `k % limit`. */
  lemma SkipOfPosition(k: nat, limit: nat)
    requires limit >= 1
    ensures Skip(k / limit + 1, limit) + k % limit == k
  {
    SkipIsProduct(k / limit + 1, limit);
  }

  datatype Pagination = Pagination(page: nat, limit: nat, total: nat, totalPages: nat)

  datatype ProductPage = ProductPage(data: seq<Product>, pagination: Pagination)

  function Min(a: nat, b: nat): nat {
    if a <= b then a else b
  }

  /** Rows `skip` to `skip + limit` of `all`, cut short at its end: what
      `skip` and `take` select. */
  function Window<T>(all: seq<T>, skip: nat, limit: nat): (w: seq<T>)
    ensures |w| == Min(limit, |all| - Min(skip, |all|))
    ensures forall i :: 0 <= i < |w| ==> skip + i < |all| && w[i] == all[skip + i]
    ensures forall x :: x in w ==> x in all
  {
    all[Min(skip, |all|)..Min(skip + limit, |all|)]
  }

  /** `getProducts(page, limit, filters)`: skip `(page - 1) * limit` matching
      products, take at most `limit`, and count all of them. */
  ghost function GetProducts(products: map<Id, Product>, page: nat, limit: nat, f: ProductFilters,
                             contains: (string, string) -> bool): (r: ProductPage)
    requires page >= 1 && limit >= 1
    ensures |r.data| <= limit
    ensures |r.data| == Min(limit, |Catalogue(products, f, contains)| - Min(Skip(page, limit), |Catalogue(products, f, contains)|))
    ensures r.pagination == Pagination(page, limit, |Catalogue(products, f, contains)|,
                                       CeilDiv(|Catalogue(products, f, contains)|, limit))
    ensures forall i :: 0 <= i < |r.data| ==>
      Skip(page, limit) + i < |Catalogue(products, f, contains)| &&
      r.data[i] == Catalogue(products, f, contains)[Skip(page, limit) + i]
    ensures Skip(page, limit) + limit <= |Catalogue(products, f, contains)| ==> |r.data| == limit
    ensures Skip(page, limit) < |Catalogue(products, f, contains)| ==> |r.data| >= 1
    ensures forall p :: p in r.data ==> p in products.Values && Matches(p, f, contains)
  {
    var all := Catalogue(products, f, contains);
    ProductPage(Window(all, Skip(page, limit), limit), Pagination(page, limit, |all|, CeilDiv(|all|, limit)))
  }

  /** `totalPages` counts exactly the non-empty pages: every page up to it
      holds a product, every page after it is empty. */
  lemma PagesUpToTotalAreFull(products: map<Id, Product>, page: nat, limit: nat, f: ProductFilters,
                              contains: (string, string) -> bool)
    requires page >= 1 && limit >= 1
    ensures |GetProducts(products, page, limit, f, contains).data| >= 1 <==>
      page <= GetProducts(products, page, limit, f, contains).pagination.totalPages
  {
    var r := GetProducts(products, page, limit, f, contains);
    SkipWithinTotal(|Catalogue(products, f, contains)|, page, limit);
    assert |r.data| == Min(limit, r.pagination.total - Min(Skip(page, limit), r.pagination.total));
  }

  /** Page `page` starts inside a listing of `total` rows exactly when it is
      one of the `CeilDiv(total, limit)` pages. */
  lemma SkipWithinTotal(total: nat, page: nat, limit: nat)
    requires page >= 1 && limit >= 1
    ensures Skip(page, limit) < total <==> page <= CeilDiv(total, limit)
  {
    var last := CeilDiv(total, limit);
    CeilDivIsLeast(total, limit);
    if page < last {
      SkipGrows(page, last, limit);
    } else if last + 1 < page {
      SkipGrows(last + 1, page, limit);
    }
  }

  /** Different pages share no product. */
  lemma PagesDisjoint(products: map<Id, Product>, limit: nat, f: ProductFilters, contains: (string, string) -> bool,
                      page: nat, page': nat)
    requires limit >= 1 && 1 <= page < page'
    ensures forall p :: p in GetProducts(products, page, limit, f, contains).data ==>
      p !in GetProducts(products, page', limit, f, contains).data
  {
    var all := Catalogue(products, f, contains);
    var a, b := GetProducts(products, page, limit, f, contains).data, GetProducts(products, page', limit, f, contains).data;
    SkipGrows(page, page', limit);
    forall p | p in a ensures p !in b {
      var i :| 0 <= i < |a| && a[i] == p;
      forall j | 0 <= j < |b| ensures b[j] != p {
        assert Skip(page, limit) + i < Skip(page', limit) + j;
      }
    }
  }

  /** Position `k` of a listing of `total` rows lies at `offset` on page
      `page` (that is `k / limit + 1`), which is within `CeilDiv(total, limit)`. */
  lemma PageOfPosition(k: nat, total: nat, limit: nat) returns (page: nat, offset: nat)
    requires limit >= 1 && k < total
    ensures page == k / limit + 1 && offset == k % limit
    ensures 1 <= page <= CeilDiv(total, limit)
    ensures Skip(page, limit) + offset == k && offset < limit
  {
    page, offset := k / limit + 1, k % limit;
    SkipOfPosition(k, limit);
    CeilDivIsLeast(total, limit);
    if CeilDiv(total, limit) + 1 < page {
      SkipGrows(CeilDiv(total, limit) + 1, page, limit);
    }
  }

  /** Every matching product appears on a page within `totalPages`, the count of pages every page reports. */
  lemma EveryMatchOnAPage(products: map<Id, Product>, limit: nat, f: ProductFilters, contains: (string, string) -> bool,
                          p: Product)
    requires limit >= 1 && p in products.Values && Matches(p, f, contains)
    ensures exists page :: (1 <= page <= CeilDiv(|Catalogue(products, f, contains)|, limit) &&
      p in GetProducts(products, page, limit, f, contains).data)
  {
    var all := Catalogue(products, f, contains);
    var k :| 0 <= k < |all| && all[k] == p;
    var page, offset := PageOfPosition(k, |all|, limit);
    var r := GetProducts(products, page, limit, f, contains);
    assert r.data[offset] == p;
  }

  /** A page lists its products newest first. */
  lemma PageNewestFirst(products: map<Id, Product>, page: nat, limit: nat, f: ProductFilters, contains: (string, string) -> bool)
    requires page >= 1 && limit >= 1
    ensures forall i, j :: 0 <= i < j < |GetProducts(products, page, limit, f, contains).data| ==>
      GetProducts(products, page, limit, f, contains).data[i].createdAt >= GetProducts(products, page, limit, f, contains).data[j].createdAt
  {
    var a := GetProducts(products, page, limit, f, contains).data;
    forall i, j | 0 <= i < j < |a| ensures a[i].createdAt >= a[j].createdAt {
      assert Skip(page, limit) + i < Skip(page, limit) + j;
    }
  }

  /** Every product on an earlier page is at least as new as every product on a later one. */
  lemma LaterPagesOlder(products: map<Id, Product>, limit: nat, f: ProductFilters, contains: (string, string) -> bool,
                        page: nat, page': nat)
    requires limit >= 1 && 1 <= page < page'
    ensures forall i, j ::
      (0 <= i < |GetProducts(products, page, limit, f, contains).data| &&
       0 <= j < |GetProducts(products, page', limit, f, contains).data|) ==>
      GetProducts(products, page, limit, f, contains).data[i].createdAt >= GetProducts(products, page', limit, f, contains).data[j].createdAt
  {
    var a, b := GetProducts(products, page, limit, f, contains).data, GetProducts(products, page', limit, f, contains).data;
    SkipGrows(page, page', limit);
    forall i, j | 0 <= i < |a| && 0 <= j < |b| ensures a[i].createdAt >= b[j].createdAt {
      assert Skip(page, limit) + i < Skip(page', limit) + j;
    }
  }
}
