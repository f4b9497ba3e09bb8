/**
 The catalog endpoints: listing and creating categories, and listing,
 fetching, creating and replacing products. Writes need an admin caller.
 */
module Catalog {
  import opened Wrappers
  import opened Models
  import opened Collections

  function IsActive(c: Category): bool { c.isActive }
  function SortOrder(c: Category): int { c.sortOrder }

  /** GET /categories: the active categories, by ascending sort order. */
  function GetCategories(store: Store): (r: seq<Category>)
    ensures forall c :: c in r <==> c in store.categories && c.isActive
    ensures forall c :: multiset(r)[c] == if c.isActive then multiset(store.categories)[c] else 0
    ensures forall i, j :: 0 <= i < j < |r| ==> r[i].sortOrder <= r[j].sortOrder
  {
    FilterCount(store.categories, IsActive);
    SortBy(Filter(store.categories, IsActive), SortOrder)
  }

  /** The category a creation request describes, with its server-assigned fields. */
  function NewCategory(data: CategoryCreate, id: Id, now: Timestamp): Category
  {
    Category(id, data.name, data.description, data.imageUrl, true, data.sortOrder, now)
  }

  /** POST /categories: admin only; appends an active category. */
  function CreateCategory(store: Store, caller: User, data: CategoryCreate, freshId: Id, now: Timestamp)
    : (r: Reply<Category>)
    requires forall c :: c in store.categories ==> c.id != freshId
    ensures !caller.isAdmin ==> r == Reply(store, Err(AdminRequired))
    ensures caller.isAdmin ==> r.result.Ok? && r.store == store.(categories := store.categories + [r.result.value])
    ensures r.result.Ok? ==>
      var c := r.result.value;
      && c.id == freshId && c.name == data.name && c.description == data.description
      && c.imageUrl == data.imageUrl && c.sortOrder == data.sortOrder
      && c.isActive && c.createdAt == now
  {
    if !caller.isAdmin then Reply(store, Err(AdminRequired))
    else
      var c := NewCategory(data, freshId, now);
      Reply(store.(categories := store.categories + [c]), Ok(c))
  }

  /** Creating a category keeps category ids distinct and leaves other collections alone. */
  lemma CreateCategoryPreservesWellFormed(store: Store, caller: User, data: CategoryCreate, freshId: Id, now: Timestamp)
    requires WellFormed(store)
    requires forall c :: c in store.categories ==> c.id != freshId
    ensures WellFormed(CreateCategory(store, caller, data, freshId, now).store)
  {
  }

  /** A category an admin creates is listed by GET /categories afterwards. */
  lemma CreatedCategoryIsListed(store: Store, caller: User, data: CategoryCreate, freshId: Id, now: Timestamp)
    requires caller.isAdmin
    requires forall c :: c in store.categories ==> c.id != freshId
    ensures var r := CreateCategory(store, caller, data, freshId, now);
      r.result.Ok? && r.result.value in GetCategories(r.store)
  {
  }

  /** The query GET /products applies: available, in the category if one is given, of the featured flag if given. */
  function MatchesQuery(p: Product, categoryId: Option<string>, featured: Option<bool>): (r: bool)
    ensures r ==> p.isAvailable
    ensures categoryId.None? || categoryId.value == "" ==>
      (r <==> p.isAvailable && (featured.None? || p.isFeatured == featured.value))
    ensures categoryId.Some? && categoryId.value != "" && p.categoryId == categoryId.value ==>
      (r <==> p.isAvailable && (featured.None? || p.isFeatured == featured.value))
    ensures categoryId.Some? && categoryId.value != "" && p.categoryId != categoryId.value ==> !r
    ensures featured.Some? && p.isFeatured != featured.value ==> !r
  {
    && p.isAvailable
    && (categoryId.Some? && categoryId.value != "" ==> p.categoryId == categoryId.value)
    && (featured.Some? ==> p.isFeatured == featured.value)
  }

  /** GET /products: the products matching the query, in stored order. */
  function GetProducts(store: Store, categoryId: Option<string>, featured: Option<bool>): (r: seq<Product>)
    ensures forall p :: p in r <==>
      && p in store.products
      && p.isAvailable
      && (categoryId.Some? && categoryId.value != "" ==> p.categoryId == categoryId.value)
      && (featured.Some? ==> p.isFeatured == featured.value)
    ensures forall p :: multiset(r)[p] == (if MatchesQuery(p, categoryId, featured) then multiset(store.products)[p] else 0)
  {
    var q := (p: Product) => MatchesQuery(p, categoryId, featured);
    FilterCount(store.products, q);
    Filter(store.products, q)
  }

  /** GET /products/{id}: the first product with that id, or 404; availability is not checked. */
  function GetProduct(store: Store, productId: Id): (r: Result<Product, HttpError>)
    ensures r.Err? <==> forall i :: 0 <= i < |store.products| ==> store.products[i].id != productId
    ensures r.Err? ==> r.error == ProductNotFound
    ensures r.Ok? ==> r.value in store.products && r.value.id == productId
  {
    match FirstIndexOf(store.products, ProductId, productId)
    case None => Err(ProductNotFound)
    case Some(i) => Ok(store.products[i])
  }

  /** The product a creation request describes, with its server-assigned fields. */
  function NewProduct(data: ProductCreate, id: Id, now: Timestamp): Product
  {
    Product(id, data.name, data.description, data.categoryId, data.price, data.imageUrl,
            data.ingredients, data.sizes, true, data.isFeatured, now)
  }

  /** POST /products: admin only; appends an available product. */
  function CreateProduct(store: Store, caller: User, data: ProductCreate, freshId: Id, now: Timestamp)
    : (r: Reply<Product>)
    requires forall p :: p in store.products ==> p.id != freshId
    ensures !caller.isAdmin ==> r == Reply(store, Err(AdminRequired))
    ensures caller.isAdmin ==> r.result.Ok? && r.store == store.(products := store.products + [r.result.value])
    ensures r.result.Ok? ==>
      var p := r.result.value;
      && p.id == freshId && p.name == data.name && p.description == data.description
      && p.categoryId == data.categoryId && p.price == data.price && p.imageUrl == data.imageUrl
      && p.ingredients == data.ingredients && p.sizes == data.sizes && p.isFeatured == data.isFeatured
      && p.isAvailable && p.createdAt == now
  {
    if !caller.isAdmin then Reply(store, Err(AdminRequired))
    else
      var p := NewProduct(data, freshId, now);
      Reply(store.(products := store.products + [p]), Ok(p))
  }

  /** A product an admin creates can be fetched by its id afterwards. */
  lemma CreatedProductIsFetchable(store: Store, caller: User, data: ProductCreate, freshId: Id, now: Timestamp)
    requires caller.isAdmin
    requires forall p :: p in store.products ==> p.id != freshId
    ensures var r := CreateProduct(store, caller, data, freshId, now);
      GetProduct(r.store, freshId) == r.result
  {
    var r := CreateProduct(store, caller, data, freshId, now);
    var ps := r.store.products;
    assert forall i :: 0 <= i < |store.products| ==> ps[i] in store.products;
    FirstIndexIsFirstMatch(ps, ProductId, freshId, |store.products|);
  }

  /** A created product is listed exactly when it matches the query; nothing else in the listing moves. */
  lemma CreatedProductListing(store: Store, caller: User, data: ProductCreate, freshId: Id, now: Timestamp,
                              categoryId: Option<string>, featured: Option<bool>)
    requires caller.isAdmin
    requires forall p :: p in store.products ==> p.id != freshId
    ensures var r := CreateProduct(store, caller, data, freshId, now);
      var p := r.result.value;
      GetProducts(r.store, categoryId, featured)
        == GetProducts(store, categoryId, featured) + (if MatchesQuery(p, categoryId, featured) then [p] else [])
  {
    var r := CreateProduct(store, caller, data, freshId, now);
    FilterAppend(store.products, r.result.value, (p: Product) => MatchesQuery(p, categoryId, featured));
  }

  /**
   The stored record after PUT /products/{id}: every field a creation request
   carries comes from the request, the id from the path, and the fields it
   does not carry from the existing record.
   */
  function MergeProduct(existing: Product, data: ProductCreate, productId: Id): (r: Product)
    ensures r.id == productId
    ensures && r.name == data.name && r.description == data.description
            && r.categoryId == data.categoryId && r.price == data.price && r.imageUrl == data.imageUrl
            && r.ingredients == data.ingredients && r.sizes == data.sizes && r.isFeatured == data.isFeatured
    ensures r.isAvailable == existing.isAvailable && r.createdAt == existing.createdAt
  {
    Product(productId, data.name, data.description, data.categoryId, data.price, data.imageUrl,
            data.ingredients, data.sizes, existing.isAvailable, data.isFeatured, existing.createdAt)
  }

  /** A replacement is the product a creation request would make, with the old availability and creation time. */
  lemma MergeIsCreationWithKeptFields(existing: Product, data: ProductCreate, productId: Id)
    ensures MergeProduct(existing, data, productId)
      == NewProduct(data, productId, existing.createdAt).(isAvailable := existing.isAvailable)
  {
  }

  /** PUT /products/{id}: admin only, then 404 for an unknown id, then the merge replaces the first match. */
  function UpdateProduct(store: Store, caller: User, productId: Id, data: ProductCreate): (r: Reply<Product>)
    ensures !caller.isAdmin ==> r == Reply(store, Err(AdminRequired))
    ensures caller.isAdmin && (forall i :: 0 <= i < |store.products| ==> store.products[i].id != productId)
      ==> r == Reply(store, Err(ProductNotFound))
    ensures r.result.Ok? <==>
      caller.isAdmin && exists i :: 0 <= i < |store.products| && store.products[i].id == productId
    ensures r.result.Ok? ==> exists k ::
      && 0 <= k < |store.products| && store.products[k].id == productId
      && (forall j :: 0 <= j < k ==> store.products[j].id != productId)
      && r.result.value == MergeProduct(store.products[k], data, productId)
      && r.store == store.(products := store.products[k := r.result.value])
  {
    if !caller.isAdmin then Reply(store, Err(AdminRequired))
    else
      match FirstIndexOf(store.products, ProductId, productId)
      case None => Reply(store, Err(ProductNotFound))
      case Some(k) =>
        var p := MergeProduct(store.products[k], data, productId);
        Reply(store.(products := store.products[k := p]), Ok(p))
  }

  /** After a successful replacement, fetching the id returns the replacement. */
  lemma UpdatedProductIsFetched(store: Store, caller: User, productId: Id, data: ProductCreate)
    ensures var r := UpdateProduct(store, caller, productId, data);
      r.result.Ok? ==> GetProduct(r.store, productId) == r.result
  {
    var r := UpdateProduct(store, caller, productId, data);
    if r.result.Ok? {
      var k :| 0 <= k < |store.products| && store.products[k].id == productId
        && (forall j :: 0 <= j < k ==> store.products[j].id != productId)
        && r.result.value == MergeProduct(store.products[k], data, productId)
        && r.store == store.(products := store.products[k := r.result.value]);
      FirstIndexIsFirstMatch(r.store.products, ProductId, productId, k);
    }
  }

  /** Sending the same replacement twice leaves the store as sending it once. */
  lemma UpdateProductIdempotent(store: Store, caller: User, productId: Id, data: ProductCreate)
    ensures var once := UpdateProduct(store, caller, productId, data);
      UpdateProduct(once.store, caller, productId, data) == once
  {
    var once := UpdateProduct(store, caller, productId, data);
    if once.result.Ok? {
      var k :| 0 <= k < |store.products| && store.products[k].id == productId
        && (forall j :: 0 <= j < k ==> store.products[j].id != productId)
        && once.result.value == MergeProduct(store.products[k], data, productId)
        && once.store == store.(products := store.products[k := once.result.value]);
      var ps := once.store.products;
      FirstIndexIsFirstMatch(ps, ProductId, productId, k);
      assert MergeProduct(ps[k], data, productId) == once.result.value;
      assert ps[k := once.result.value] == ps;
    }
  }

  /** Replacing a product keeps product ids distinct. */
  lemma UpdateProductPreservesWellFormed(store: Store, caller: User, productId: Id, data: ProductCreate)
    requires WellFormed(store)
    ensures WellFormed(UpdateProduct(store, caller, productId, data).store)
  {
  }

  /** Creating a product keeps product ids distinct. */
  lemma CreateProductPreservesWellFormed(store: Store, caller: User, data: ProductCreate, freshId: Id, now: Timestamp)
    requires WellFormed(store)
    requires forall p :: p in store.products ==> p.id != freshId
    ensures WellFormed(CreateProduct(store, caller, data, freshId, now).store)
  {
  }
}
