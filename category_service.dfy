/** Categories: unique names, guarded create, rename and delete, and the
    listing by name. */
module CategoryService {
  import opened Model
  import opened Db
  import opened Ordering

  /** The body of `createCategory` (`CreateCategoryData`). */
  datatype NewCategory = NewCategory(name: string, description: Option<string>)

  /** The body of `updateCategory` (`UpdateCategoryData`): `None` leaves a column as it is. */
  datatype CategoryPatch = CategoryPatch(name: Option<string>, description: Option<string>)

  /** Some category is called `name`: `findUnique({ where: { name } })` finds a row. */
  predicate NameUsed(categories: map<Id, Category>, name: string) {
    exists c :: c in categories && categories[c].name == name
  }

  /** Some category other than `id` is called `name`. */
  predicate NameUsedByOther(categories: map<Id, Category>, name: string, id: Id) {
    exists c :: c in categories && c != id && categories[c].name == name
  }

  /** A category under a fresh id and a name no category has keeps the table valid. */
  lemma CategoriesValidInsert(categories: map<Id, Category>, next: nat, c: Category)
    requires CategoriesValid(categories, next) && c.id < next && c.id !in categories && !NameUsed(categories, c.name)
    ensures CategoriesValid(categories[c.id := c], next)
  {
    var categories' := categories[c.id := c];
    forall a, b | a in categories' && b in categories' && SameName(categories', a, b) ensures a == b {
      if a != c.id && b != c.id {
        assert SameName(categories, a, b);
      }
    }
  }

  /** `createCategory`: refused when the name is taken, otherwise the new row. */
  method CreateCategory(db: Store, data: NewCategory) returns (r: Result<Category>)
    requires db.Valid()
    modifies db`categories, db`nextId
    ensures db.Valid()
    ensures NameUsed(old(db.categories), data.name) ==> r == Failure(NameTaken) && unchanged(db)
    ensures !NameUsed(old(db.categories), data.name) ==>
      && r.Success? && r.value == Category(r.value.id, data.name, data.description)
      && r.value.id !in old(db.categories)
      && db.categories == old(db.categories)[r.value.id := r.value]
  {
    if NameUsed(db.categories, data.name) {
      return Failure(NameTaken);
    }
    var id := db.NewId();
    var c := Category(id, data.name, data.description);
    CategoriesValidInsert(db.categories, db.nextId, c);
    db.categories := db.categories[id := c];
    r := Success(c);
  }

  /** `orderBy: { name: "asc" }`. */
  predicate ByName(a: Category, b: Category) {
    LexLe(a.name, b.name)
  }

  lemma ByNameIsTotalPreorder()
    ensures TotalPreorder(ByName)
  {
    forall a: Category, b: Category ensures ByName(a, b) || ByName(b, a) {
      LexLeTotal(a.name, b.name);
    }
    forall a: Category, b: Category, c: Category | ByName(a, b) && ByName(b, c) ensures ByName(a, c) {
      LexLeTransitive(a.name, b.name, c.name);
    }
  }

  /** `getCategories`: every category, each once, by name. */
  ghost function GetCategories(categories: map<Id, Category>): (r: seq<Category>)
    ensures forall c :: c in r <==> c in categories.Values
    ensures forall i, j :: 0 <= i < j < |r| ==> r[i] != r[j]
    ensures forall i, j :: 0 <= i < j < |r| ==> LexLe(r[i].name, r[j].name)
  {
    ByNameIsTotalPreorder();
    SortBy(categories.Values, ByName)
  }

  /** With unique names the listing is strictly increasing by name: no two entries tie. */
  lemma CategoriesStrictlyByName(db: Store)
    requires db.Valid()
    ensures forall i, j :: 0 <= i < j < |GetCategories(db.categories)| ==>
      GetCategories(db.categories)[i].name != GetCategories(db.categories)[j].name
  {
    var r := GetCategories(db.categories);
    forall i, j | 0 <= i < j < |r| ensures r[i].name != r[j].name {
      assert r[i] in db.categories.Values && r[j] in db.categories.Values;
      var x :| x in db.categories && db.categories[x] == r[i];
      var y :| y in db.categories && db.categories[y] == r[j];
      assert x != y;
      assert !SameName(db.categories, x, y);
    }
  }

  /** `getCategoryById`. */
  function GetCategoryById(categories: map<Id, Category>, id: Id): (r: Option<Category>)
    ensures r.Some? <==> id in categories
    ensures r.Some? ==> r.value == categories[id]
  {
    if id in categories then Some(categories[id]) else None
  }

  /** `prisma.category.update({ data })`: the supplied columns are written, the others kept. */
  function CategoryPatched(c: Category, u: CategoryPatch): (r: Category)
    ensures r.id == c.id
    ensures r.name == (if u.name.Some? then u.name.value else c.name)
    ensures r.description == (if u.description.Some? then u.description else c.description)
  {
    Category(c.id, if u.name.Some? then u.name.value else c.name, if u.description.Some? then u.description else c.description)
  }

  /** Renaming a category to a name no other category has keeps the table valid. */
  lemma CategoriesValidRename(categories: map<Id, Category>, next: nat, c: Category)
    requires CategoriesValid(categories, next) && c.id in categories && !NameUsedByOther(categories, c.name, c.id)
    ensures CategoriesValid(categories[c.id := c], next)
  {
    var categories' := categories[c.id := c];
    forall a, b | a in categories' && b in categories' && SameName(categories', a, b) ensures a == b {
      if a != c.id && b != c.id {
        assert SameName(categories, a, b);
      }
    }
  }

  /** `updateCategory`: NotFound for a missing id; a new name held by another
      category is refused, keeping its own name is allowed; otherwise the
      supplied columns are written.  The request schema admits no empty name. */
  method UpdateCategory(db: Store, id: Id, u: CategoryPatch) returns (r: Result<Category>)
    requires db.Valid()
    requires u.name.Some? ==> u.name.value != ""
    modifies db`categories
    ensures db.Valid()
    ensures id !in old(db.categories) ==> r == Failure(NotFound(CategoryEntity)) && unchanged(db)
    ensures id in old(db.categories) && u.name.Some? && NameUsedByOther(old(db.categories), u.name.value, id) ==>
      r == Failure(NameTaken) && unchanged(db)
    ensures id in old(db.categories) && !(u.name.Some? && NameUsedByOther(old(db.categories), u.name.value, id)) ==>
      && r == Success(CategoryPatched(old(db.categories)[id], u))
      && db.categories == old(db.categories)[id := r.value]
  {
    if id !in db.categories {
      return Failure(NotFound(CategoryEntity));
    }
    if Given(u.name) && NameUsedByOther(db.categories, u.name.value, id) {
      return Failure(NameTaken);
    }
    var c := CategoryPatched(db.categories[id], u);
    if !u.name.Some? {
      forall x | x in db.categories && x != id && db.categories[x].name == c.name ensures false {
        assert SameName(db.categories, x, id);
      }
    }
    CategoriesValidRename(db.categories, db.nextId, c);
    db.categories := db.categories[id := c];
    r := Success(c);
  }

  /** Some product is filed under category `id`: `product.count({ where: { categoryId: id } }) > 0`. */
  predicate HasProducts(products: map<Id, Product>, id: Id) {
    exists p :: p in products && products[p].categoryId == id
  }

  /** Removing a category no product references keeps every table valid. */
  lemma CategoriesValidDelete(categories: map<Id, Category>, products: map<Id, Product>, next: nat, id: Id)
    requires CategoriesValid(categories, next) && ProductsValid(products, categories, next) && !HasProducts(products, id)
    ensures CategoriesValid(categories - {id}, next) && ProductsValid(products, categories - {id}, next)
  {
    var categories' := categories - {id};
    forall a, b | a in categories' && b in categories' && SameName(categories', a, b) ensures a == b {
      assert SameName(categories, a, b);
    }
  }

  /** `deleteCategory`: NotFound for a missing id, refused while products use
      the category, otherwise exactly that row goes. */
  method DeleteCategory(db: Store, id: Id) returns (r: Result<()>)
    requires db.Valid()
    modifies db`categories
    ensures db.Valid()
    ensures id !in old(db.categories) ==> r == Failure(NotFound(CategoryEntity)) && unchanged(db)
    ensures id in old(db.categories) && HasProducts(db.products, id) ==> r == Failure(CategoryNotEmpty) && unchanged(db)
    ensures id in old(db.categories) && !HasProducts(db.products, id) ==>
      r == Success(()) && db.categories == old(db.categories) - {id}
  {
    if id !in db.categories {
      return Failure(NotFound(CategoryEntity));
    }
    if HasProducts(db.products, id) {
      return Failure(CategoryNotEmpty);
    }
    CategoriesValidDelete(db.categories, db.products, db.nextId, id);
    db.categories := db.categories - {id};
    r := Success(());
  }
}
