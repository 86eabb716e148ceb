/** `ProductsController`: `store`, `show`, `update` and `destroy` over the primary
    `products` table. The handlers receive what `ProductRequest` validated; no
    product write publishes a change event. */
module ProductsController {
  import opened Common
  import opened Schema
  import opened PrimaryDatabase
  import opened ProductRequest
  import Helpers
  import ApiResponse
  import Postgres

  /** What a handler returns and the product table it leaves. */
  datatype Outcome = Outcome(response: Response, products: ProductTable)

  /** `$product->load('category')` for a `category_id` in the form the database
      holds it: the relation's `SoftDeletes` scope hides a deleted category. */
  function LoadCategory(categories: CategoryTable, id: Id): (r: Option<CategoryRow>)
    ensures r.Some? <==> id in categories && categories[id].Active()
    ensures r.Some? ==> r.value == categories[id]
  {
    if id in categories && categories[id].Active() then Some(categories[id]) else None
  }

  /** The product array the handlers build, with `price` and `stock` as given. */
  function Card(id: Id, row: ProductRow, category: CategoryRow, price: PhpValue, stock: PhpValue): PhpValue
  {
    Assoc(map[
      "id" := Str(id),
      "sku" := Str(row.sku),
      "name" := Str(row.name),
      "price" := price,
      "stock" := stock,
      "category" := Assoc(map["id" := Str(row.categoryId), "name" := Str(category.name)]),
      "createdAt" := Int(Helpers.ToMilliseconds(row.createdAt))])
  }

  lemma CardEntries(id: Id, row: ProductRow, category: CategoryRow, price: PhpValue, stock: PhpValue)
    ensures var e := Card(id, row, category, price, stock).entries;
      && e["price"] == price && e["stock"] == stock && e["createdAt"] == Int(Helpers.ToMilliseconds(row.createdAt))
      && e["category"] == Assoc(map["id" := Str(row.categoryId), "name" := Str(category.name)])
  {
  }

  /** The product as `show` answers it, read back from the row: the price is the
      decimal column's text and the stock an integer. */
  function Formatted(id: Id, row: ProductRow, category: CategoryRow): PhpValue
  {
    Card(id, row, category, Str(Helpers.FormatDecimal(row.price)), Int(row.stock))
  }

  /** The product as `store` and `update` answer it: the model instance still holds
      the validated input, so `price` and `stock` are echoed as they were sent. */
  function Echoed(id: Id, row: ProductRow, category: CategoryRow, f: ProductFields): PhpValue
  {
    Card(id, row, category, f.priceSent, f.stockSent)
  }

  /** The database refuses to write `f` as row `id`: the SKU's unique index covers
      every row, the category foreign key any category row (the `uuid` value of
      `category_id` must be a category's key), and the column types bound the values. */
  predicate WriteRefused(products: ProductTable, categories: CategoryTable, id: Id, f: ProductFields)
  {
    || SkuTakenByAny(products, f.sku, Some(id))
    || !Postgres.Find(categories, f.categoryId).Found?
    || !FitsProductColumns(f.sku, f.name, f.price, f.stock)
  }

  /** The category key `f.categoryId` names, once the write has been accepted. */
  function CategoryKey(products: ProductTable, categories: CategoryTable, id: Id, f: ProductFields): (c: Id)
    requires !WriteRefused(products, categories, id, f)
    ensures c in categories && Postgres.PgUuid(c) == Postgres.PgUuid(f.categoryId)
  {
    Postgres.Find(categories, f.categoryId).key
  }

  /** The row `Product::create` writes: the `category_id` column holds the category's key. */
  function NewRow(f: ProductFields, category: Id, now: Instant): ProductRow
  {
    ProductRow(f.sku, f.name, f.price, f.stock, category, now, now, None)
  }

  /** `$product->update($validated)`: every validated field is written; `updated_at` is touched. */
  function Overwritten(row: ProductRow, f: ProductFields, category: Id, now: Instant): ProductRow
  {
    row.(sku := f.sku, name := f.name, price := f.price, stock := f.stock, categoryId := category, updatedAt := now)
  }

  /** The active product the path's id names, as `Product::find($id)` and the
      route-model binding of `{product}` find it: `HasUuids` refuses text that is
      not a UUID with a 404 before any query, and the lookup compares `uuid` values. */
  function ActiveProduct(products: ProductTable, id: string): (r: Option<Id>)
    ensures r.Some? ==>
      && IsUuid(id) && r.value in products && products[r.value].Active()
      && Postgres.PgUuid(r.value) == Postgres.PgUuid(id)
    ensures r.None? && IsUuid(id) ==>
      forall k :: k in products && Postgres.Stored(k) && products[k].Active() ==> Postgres.PgUuid(k) != Postgres.PgUuid(id)
  {
    if !IsUuid(id) then None
    else match Postgres.Find(products, id)
      case Found(k) => if products[k].Active() then Some(k) else None
      case _ => None
  }

  function DuplicateSku(): Response
  {
    ApiResponse.ErrorResponse(Assoc(map["sku" := List([Str("SKU already exists")])]), 422)
  }

  function InvalidUuid(): Response
  {
    ApiResponse.ErrorResponse(Assoc(map["id" := List([Str("Invalid UUID format")])]), 422)
  }

  /** The framework's answer when route-model binding finds no active product;
      its body is not part of this model. */
  function ModelNotFound(): Response
  {
    Response(404, Null)
  }

  /** `store`. `newId` is the UUID `HasUuids` generates, `now` the clock. */
  function StoreOutcome(products: ProductTable, categories: CategoryTable, f: ProductFields, newId: Id, now: Instant): (o: Outcome)
  {
    if SkuTakenByActive(products, f.sku, None) then
      Outcome(DuplicateSku(), products)
    else if newId in products || WriteRefused(products, categories, newId, f)
      || LoadCategory(categories, CategoryKey(products, categories, newId, f)).None? then
      Outcome(ApiResponse.ErrorResponse(Str("Failed to create product"), 500), products)
    else
      var c := CategoryKey(products, categories, newId, f);
      var row := NewRow(f, c, now);
      Outcome(
        ApiResponse.SuccessResponse(Echoed(newId, row, categories[c], f), Str("Product created successfully"), 201),
        products[newId := row])
  }

  /** `show`, for the route-model binding of the path's id. */
  function ShowOutcome(products: ProductTable, categories: CategoryTable, id: string): (r: Response)
  {
    match ActiveProduct(products, id)
    case None => ModelNotFound()
    case Some(k) =>
      match LoadCategory(categories, products[k].categoryId)
      case None => ApiResponse.ErrorResponse(Str("Failed to fetch product"), 500)
      case Some(category) => ApiResponse.SuccessResponse(Formatted(k, products[k], category))
  }

  /** `update`, for the route-model binding of the path's id. */
  function UpdateOutcome(products: ProductTable, categories: CategoryTable, id: string, f: ProductFields, now: Instant): (o: Outcome)
  {
    match ActiveProduct(products, id)
    case None => Outcome(ModelNotFound(), products)
    case Some(k) =>
      if WriteRefused(products, categories, k, f) || LoadCategory(categories, CategoryKey(products, categories, k, f)).None? then
        Outcome(ApiResponse.ErrorResponse(Str("Failed to update product"), 500), products)
      else
        var c := CategoryKey(products, categories, k, f);
        var row := Overwritten(products[k], f, c, now);
        Outcome(
          ApiResponse.SuccessResponse(Echoed(k, row, categories[c], f), Str("Product updated successfully")),
          products[k := row])
  }

  function SoftDeleted(row: ProductRow, now: Instant): ProductRow
  {
    row.(deletedAt := Some(now), updatedAt := now)
  }

  /** `destroy`: the UUID check comes before the lookup here, so `find` never
      meets text it cannot cast. */
  function DestroyOutcome(products: ProductTable, id: string, now: Instant): (o: Outcome)
  {
    if !IsUuid(id) then
      Outcome(InvalidUuid(), products)
    else match ActiveProduct(products, id)
      case None => Outcome(ApiResponse.ErrorResponse(Str("Product not found"), 404), products)
      case Some(k) =>
        Outcome(
          ApiResponse.SuccessResponse(Null, Str("Product deleted successfully"), 204),
          products[k := SoftDeleted(products[k], now)])
  }

  class ProductsController {
    const db: Database

    constructor (db: Database)
      ensures this.db == db
    {
      this.db := db;
    }

    method Store(f: ProductFields, newId: Id, now: Instant) returns (response: Response)
      modifies db
      ensures var o := StoreOutcome(old(db.products), old(db.categories), f, newId, now);
        response == o.response && db.products == o.products
      ensures db.categories == old(db.categories)
    {
      if SkuTakenByActive(db.products, f.sku, None) {
        return DuplicateSku();
      }
      var snapshot := db.products; // DB::beginTransaction
      if newId in db.products || WriteRefused(db.products, db.categories, newId, f) {
        // Product::create throws; the catch rolls back
        db.products := snapshot;
        return ApiResponse.ErrorResponse(Str("Failed to create product"), 500);
      }
      var c := CategoryKey(db.products, db.categories, newId, f);
      var row := NewRow(f, c, now);
      db.products := db.products[newId := row];
      var category := LoadCategory(db.categories, c);
      if category.None? {
        // reading `->id` of a missing relation throws; the catch rolls back
        db.products := snapshot;
        return ApiResponse.ErrorResponse(Str("Failed to create product"), 500);
      }
      // DB::commit
      response := ApiResponse.SuccessResponse(Echoed(newId, row, category.value, f), Str("Product created successfully"), 201);
    }

    method Show(id: string) returns (response: Response)
      ensures response == ShowOutcome(db.products, db.categories, id)
    {
      var bound := ActiveProduct(db.products, id);
      if bound.None? {
        return ModelNotFound();
      }
      var k := bound.value;
      var row := db.products[k];
      var category := LoadCategory(db.categories, row.categoryId);
      if category.None? {
        return ApiResponse.ErrorResponse(Str("Failed to fetch product"), 500);
      }
      response := ApiResponse.SuccessResponse(Formatted(k, row, category.value));
    }

    method Update(id: string, f: ProductFields, now: Instant) returns (response: Response)
      modifies db
      ensures var o := UpdateOutcome(old(db.products), old(db.categories), id, f, now);
        response == o.response && db.products == o.products
      ensures db.categories == old(db.categories)
    {
      var bound := ActiveProduct(db.products, id);
      if bound.None? {
        return ModelNotFound();
      }
      var k := bound.value;
      var snapshot := db.products; // DB::beginTransaction
      if WriteRefused(db.products, db.categories, k, f) {
        db.products := snapshot;
        return ApiResponse.ErrorResponse(Str("Failed to update product"), 500);
      }
      var c := CategoryKey(db.products, db.categories, k, f);
      var row := Overwritten(db.products[k], f, c, now);
      db.products := db.products[k := row];
      var category := LoadCategory(db.categories, c);
      if category.None? {
        db.products := snapshot;
        return ApiResponse.ErrorResponse(Str("Failed to update product"), 500);
      }
      // DB::commit
      response := ApiResponse.SuccessResponse(Echoed(k, row, category.value, f), Str("Product updated successfully"));
    }

    method Destroy(id: string, now: Instant) returns (response: Response)
      modifies db
      ensures var o := DestroyOutcome(old(db.products), id, now);
        response == o.response && db.products == o.products
      ensures db.categories == old(db.categories)
    {
      if !IsUuid(id) {
        return InvalidUuid();
      }
      var found := ActiveProduct(db.products, id);
      if found.None? {
        return ApiResponse.ErrorResponse(Str("Product not found"), 404);
      }
      var k := found.value;
      db.products := db.products[k := SoftDeleted(db.products[k], now)];
      response := ApiResponse.SuccessResponse(Null, Str("Product deleted successfully"), 204);
    }
  }

  /** A SKU held by an active product is refused with `errors.sku` and nothing is added. */
  lemma StoreRejectsActiveDuplicate(products: ProductTable, categories: CategoryTable, f: ProductFields, newId: Id, now: Instant)
    requires SkuTakenByActive(products, f.sku, None)
    ensures var o := StoreOutcome(products, categories, f, newId, now);
      && o.response.code == 422 && o.products == products
      && o.response.body.entries["errors"] == Assoc(map["sku" := List([Str("SKU already exists")])])
  {
  }

  /** `store` succeeds exactly when the database accepts the row and the category
      its `category_id` names is active; then the table gains exactly that row,
      holding the category's key, and the answer shows it. */
  lemma StoreCreates(products: ProductTable, categories: CategoryTable, f: ProductFields, newId: Id, now: Instant)
    ensures var o := StoreOutcome(products, categories, f, newId, now);
      o.response.code == 201 <==>
        newId !in products && !WriteRefused(products, categories, newId, f)
        && categories[CategoryKey(products, categories, newId, f)].Active()
    ensures var o := StoreOutcome(products, categories, f, newId, now);
      o.response.code == 201 ==>
        var c := CategoryKey(products, categories, newId, f);
        && Postgres.PgUuid(c) == Postgres.PgUuid(f.categoryId)
        && o.products == products[newId := ProductRow(f.sku, f.name, f.price, f.stock, c, now, now, None)]
        && var shown := o.response.body.entries["data"];
           && shown.entries["category"] == Assoc(map["id" := Str(c), "name" := Str(categories[c].name)])
           && shown.entries["createdAt"] == Int(now * 1000)
           && shown.entries["price"] == f.priceSent && shown.entries["stock"] == f.stockSent
  {
    var o := StoreOutcome(products, categories, f, newId, now);
    if SkuTakenByActive(products, f.sku, None) {
      assert SkuTakenByAny(products, f.sku, Some(newId)) || newId in products;
      assert o.response == DuplicateSku() && DuplicateSku().code == 422;
    } else if newId in products || WriteRefused(products, categories, newId, f) {
      assert o.response.code == 500;
    } else {
      var c := CategoryKey(products, categories, newId, f);
      if categories[c].Active() {
        var row := NewRow(f, c, now);
        CardEntries(newId, row, categories[c], f.priceSent, f.stockSent);
        assert o == Outcome(
          ApiResponse.SuccessResponse(Echoed(newId, row, categories[c], f), Str("Product created successfully"), 201),
          products[newId := row]);
      } else {
        assert o.response.code == 500;
      }
    }
  }

  /** `store` echoes the price as it was sent, while `show` of the same product
      reads the decimal column back: a price sent as the integer 100 comes back from
      `show` as the text "100.00". */
  lemma ShowAfterStoreReadsColumns(products: ProductTable, categories: CategoryTable, f: ProductFields, newId: Id, now: Instant)
    requires Postgres.Stored(newId) && StoreOutcome(products, categories, f, newId, now).response.code == 201
    ensures var o := StoreOutcome(products, categories, f, newId, now);
      var shown := ShowOutcome(o.products, categories, newId);
      && shown.code == 200
      && shown.body.entries["data"].entries["price"] == Str(Helpers.FormatDecimal(f.price))
      && shown.body.entries["data"].entries["stock"] == Int(f.stock)
      && o.response.body.entries["data"].entries["price"] == f.priceSent
  {
    StoreCreates(products, categories, f, newId, now);
    var o := StoreOutcome(products, categories, f, newId, now);
    Postgres.FindStored(o.products, newId);
    Postgres.StoredIsUuid(newId);
  }

  /** `update` overwrites the validated fields of the product the path's id names
      and of that product only; its key, creation time and deletion flag stay, the
      `category_id` column holds the named category's key, and it answers 200. */
  lemma UpdateOverwrites(products: ProductTable, categories: CategoryTable, id: string, f: ProductFields, now: Instant)
    requires UpdateOutcome(products, categories, id, f, now).response.code == 200
    ensures ActiveProduct(products, id).Some?
    ensures var k := ActiveProduct(products, id).value;
      var o := UpdateOutcome(products, categories, id, f, now);
      && Postgres.PgUuid(k) == Postgres.PgUuid(id)
      && o.products.Keys == products.Keys
      && (forall j :: j in products && j != k ==> o.products[j] == products[j])
      && var row := o.products[k];
         && row.sku == f.sku && row.name == f.name && row.price == f.price && row.stock == f.stock
         && row.categoryId in categories && Postgres.PgUuid(row.categoryId) == Postgres.PgUuid(f.categoryId)
         && row.createdAt == products[k].createdAt && row.Active()
  {
  }

  /** `destroy` checks the id's format before looking anything up. */
  lemma DestroyChecksUuidFirst(products: ProductTable, id: Id, now: Instant)
    requires !IsUuid(id)
    ensures DestroyOutcome(products, id, now) == Outcome(InvalidUuid(), products)
  {
  }

  /** A UUID whose value no active product has gets 404. */
  lemma DestroyNotFound(products: ProductTable, id: string, now: Instant)
    requires IsUuid(id)
    requires forall k :: k in products && products[k].Active() ==> Postgres.PgUuid(k) != Postgres.PgUuid(id)
    ensures DestroyOutcome(products, id, now) == Outcome(ApiResponse.ErrorResponse(Str("Product not found"), 404), products)
  {
  }

  /** Two spellings of one `uuid` value that `Str::isUuid` judges alike get the
      same answer from `show`, `update` and `destroy`. */
  lemma SpellingIrrelevant(products: ProductTable, categories: CategoryTable, a: string, b: string, f: ProductFields, now: Instant)
    requires Postgres.PgUuid(a) == Postgres.PgUuid(b) && IsUuid(a) == IsUuid(b)
    ensures ShowOutcome(products, categories, a) == ShowOutcome(products, categories, b)
    ensures UpdateOutcome(products, categories, a, f, now) == UpdateOutcome(products, categories, b, f, now)
    ensures DestroyOutcome(products, a, now) == DestroyOutcome(products, b, now)
  {
    Postgres.FindBySameValue(products, a, b);
  }

  /** A product id written in capitals names the same product. */
  lemma UpperCaseIdFound(products: ProductTable, categories: CategoryTable, id: string, f: ProductFields, now: Instant)
    requires IsUuid(id)
    ensures ShowOutcome(products, categories, Postgres.UpperText(id)) == ShowOutcome(products, categories, id)
    ensures UpdateOutcome(products, categories, Postgres.UpperText(id), f, now) == UpdateOutcome(products, categories, id, f, now)
    ensures DestroyOutcome(products, Postgres.UpperText(id), now) == DestroyOutcome(products, id, now)
  {
    Postgres.UuidIgnoresCase(id);
    Postgres.UpperKeepsUuid(id);
    SpellingIrrelevant(products, categories, Postgres.UpperText(id), id, f, now);
  }

  /** A successful destroy keeps the row, flagged deleted, and answers 204 with `data: null`. */
  lemma DestroySoftDeletes(products: ProductTable, id: Id, now: Instant)
    requires Postgres.Stored(id) && id in products && products[id].Active()
    ensures var o := DestroyOutcome(products, id, now);
      && o.response.code == 204 && o.response.body.entries["data"] == Null
      && o.products.Keys == products.Keys && !o.products[id].Active()
      && (forall j :: j in products && j != id ==> o.products[j] == products[j])
  {
    Postgres.FindStored(products, id);
    Postgres.StoredIsUuid(id);
  }

  /** Every failed write leaves the table as it was: the transaction is rolled back. */
  lemma FailedStoreChangesNothing(products: ProductTable, categories: CategoryTable, f: ProductFields, id: Id, now: Instant)
    ensures StoreOutcome(products, categories, f, id, now).response.code != 201 ==> StoreOutcome(products, categories, f, id, now).products == products
  {
  }

  lemma FailedUpdateChangesNothing(products: ProductTable, categories: CategoryTable, f: ProductFields, id: string, now: Instant)
    ensures UpdateOutcome(products, categories, id, f, now).response.code != 200 ==> UpdateOutcome(products, categories, id, f, now).products == products
  {
  }

  lemma FailedDestroyChangesNothing(products: ProductTable, id: string, now: Instant)
    ensures DestroyOutcome(products, id, now).response.code != 204 ==> DestroyOutcome(products, id, now).products == products
  {
  }

  /** After `ProductRequest` has accepted a body, the controller's own duplicate
      check cannot fire, and only an inactive category or an oversized value can stop the insert. */
  lemma {:induction false} ValidatedStore(input: ProductInput, products: ProductTable, categories: CategoryTable, newId: Id, now: Instant)
    requires ProductRequest.Validate(input, products, categories).Success?
    requires newId !in products
    ensures var f := ProductRequest.Validate(input, products, categories).value;
      StoreOutcome(products, categories, f, newId, now).response.code == 201 <==>
        categories[Postgres.Find(categories, f.categoryId).key].Active() && FitsProductColumns(f.sku, f.name, f.price, f.stock)
  {
    var f := ProductRequest.Validate(input, products, categories).value;
    ProductRequest.SkuRuleSubsumesActiveCheck(input, products, categories);
    assert !SkuTakenByAny(products, f.sku, Some(newId));
    StoreCreates(products, categories, f, newId, now);
  }
}
