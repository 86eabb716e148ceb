/** `ProductRequest`: the rules a product body must pass before `store` and
    `update` run. */
module ProductRequest {
  import opened Common
  import opened Schema
  import Postgres

  /** One input field: absent, present but not of the rule's type (null, an array,
      text that is not numeric), or a value of that type. */
  datatype Input<+T> = Absent | Invalid | Given(value: T)

  /** A body as the validator sees it; `price` is in cents. `priceSent` and
      `stockSent` are the two numbers exactly as the client sent them (an integer
      or numeric text), which `validated()` passes on unchanged. */
  datatype ProductInput = ProductInput(
    sku: Input<string>,
    name: Input<string>,
    price: Input<int>,
    stock: Input<int>,
    categoryId: Input<string>,
    priceSent: PhpValue,
    stockSent: PhpValue)

  /** The body's fields; `Key` is the name each has in the body and in the error bag. */
  datatype Field = Sku | Name | Price | Stock | CategoryIdField
  {
    function Key(): string
    {
      match this
      case Sku => "sku"
      case Name => "name"
      case Price => "price"
      case Stock => "stock"
      case CategoryIdField => "category_id"
    }
  }

  /** What `$request->validated()` returns. */
  datatype ProductFields = ProductFields(sku: string, name: string, price: int, stock: int, categoryId: Id, priceSent: PhpValue, stockSent: PhpValue)

  /** `required` on a string: present and not blank after `trim`. */
  predicate RequiredText(field: Input<string>)
  {
    field.Given? && Trim(field.value) != []
  }

  /** `/^[a-zA-Z0-9\s]+$/`: no hyphen, unlike category names. */
  predicate ProductNameCharset(s: string)
  {
    s != [] && forall i :: 0 <= i < |s| ==>
      'a' <= s[i] <= 'z' || 'A' <= s[i] <= 'Z' || '0' <= s[i] <= '9' || IsRegexSpace(s[i])
  }

  /** `sku`: required|string|unique:products,sku. The rule has no `whereNull`, so
      soft-deleted rows hold their SKUs too; `ignore` is the row excused from it. */
  predicate SkuPasses(field: Input<string>, products: ProductTable, ignore: Option<Id>)
  {
    RequiredText(field) && !SkuTakenByAny(products, field.value, ignore)
  }

  /** `name`: required|string|max:255|regex:/^[a-zA-Z0-9\s]+$/ */
  predicate NamePasses(field: Input<string>)
  {
    RequiredText(field) && |field.value| <= 255 && ProductNameCharset(field.value)
  }

  /** `price`: required|numeric|min:0, and `stock`: required|integer|min:0. */
  predicate NonNegativePasses(field: Input<int>)
  {
    field.Given? && field.value >= 0
  }

  /** `category_id`: required|uuid|exists:categories,id. `exists` queries the table
      directly, so a soft-deleted category still passes, and compares the `uuid`
      column with the text as a value, so any letter case finds the row. */
  predicate CategoryPasses(field: Input<string>, categories: CategoryTable)
  {
    field.Given? && IsUuid(field.value) && Postgres.Find(categories, field.value).Found?
  }

  /** The set of fields whose verdict is "fails". */
  function Failing(sku: bool, name: bool, price: bool, stock: bool, categoryId: bool): (r: set<Field>)
    ensures Sku in r <==> !sku
    ensures Name in r <==> !name
    ensures Price in r <==> !price
    ensures Stock in r <==> !stock
    ensures CategoryIdField in r <==> !categoryId
    ensures r == {} <==> sku && name && price && stock && categoryId
  {
    (if sku then {} else {Sku}) + (if name then {} else {Name}) + (if price then {} else {Price})
    + (if stock then {} else {Stock}) + (if categoryId then {} else {CategoryIdField})
  }

  /** The fields whose rules fail; `ignore` is the row the `unique` rule excuses. */
  function FailingFields(input: ProductInput, products: ProductTable, categories: CategoryTable, ignore: Option<Id>): (r: set<Field>)
    ensures Sku in r <==> !SkuPasses(input.sku, products, ignore)
    ensures Name in r <==> !NamePasses(input.name)
    ensures Price in r <==> !NonNegativePasses(input.price)
    ensures Stock in r <==> !NonNegativePasses(input.stock)
    ensures CategoryIdField in r <==> !CategoryPasses(input.categoryId, categories)
    ensures r == {} <==>
      && SkuPasses(input.sku, products, ignore) && NamePasses(input.name)
      && NonNegativePasses(input.price) && NonNegativePasses(input.stock)
      && CategoryPasses(input.categoryId, categories)
  {
    Failing(
      SkuPasses(input.sku, products, ignore), NamePasses(input.name),
      NonNegativePasses(input.price), NonNegativePasses(input.stock),
      CategoryPasses(input.categoryId, categories))
  }

  /** The request as written: the same rules for `store` and `update`, with no row excused. */
  function Validate(input: ProductInput, products: ProductTable, categories: CategoryTable): (r: Result<ProductFields, set<Field>>)
    ensures r.Success? <==> FailingFields(input, products, categories, None) == {}
    ensures r.Failure? ==> r.error == FailingFields(input, products, categories, None) && r.error != {}
    ensures r.Success? ==>
      && r.value == ProductFields(input.sku.value, input.name.value, input.price.value, input.stock.value, input.categoryId.value, input.priceSent, input.stockSent)
      && Trim(r.value.sku) != [] && !SkuTakenByAny(products, r.value.sku, None)
      && |r.value.name| <= 255 && ProductNameCharset(r.value.name)
      && r.value.price >= 0 && r.value.stock >= 0
      && IsUuid(r.value.categoryId) && Postgres.Find(categories, r.value.categoryId).Found?
  {
    ValidateIgnoring(input, products, categories, None)
  }

  /** The rules with the `unique` rule excusing `ignore`. */
  function ValidateIgnoring(input: ProductInput, products: ProductTable, categories: CategoryTable, ignore: Option<Id>): (r: Result<ProductFields, set<Field>>)
    ensures r.Success? <==> FailingFields(input, products, categories, ignore) == {}
    ensures r.Failure? ==> r.error == FailingFields(input, products, categories, ignore)
    ensures r.Success? ==> r.value.sku == input.sku.value && !SkuTakenByAny(products, r.value.sku, ignore)
  {
    var failing := FailingFields(input, products, categories, ignore);
    if failing == {} then
      Success(ProductFields(input.sku.value, input.name.value, input.price.value, input.stock.value, input.categoryId.value, input.priceSent, input.stockSent))
    else
      Failure(failing)
  }

  /** The request `update` should use: the product being updated keeps its own SKU. */
  function ValidateForUpdate(input: ProductInput, products: ProductTable, categories: CategoryTable, id: Id): (r: Result<ProductFields, set<Field>>)
    ensures r.Success? <==> FailingFields(input, products, categories, Some(id)) == {}
    ensures id in products && input.sku == Given(products[id].sku) && Trim(products[id].sku) != []
      && NamePasses(input.name) && NonNegativePasses(input.price) && NonNegativePasses(input.stock)
      && CategoryPasses(input.categoryId, categories) && (forall j :: j in products && j != id ==> products[j].sku != products[id].sku)
      ==> r.Success?
  {
    ValidateIgnoring(input, products, categories, Some(id))
  }

  /** An update body that repeats the product's own SKU fails as written... */
  lemma UpdateKeepingSkuRejectedAsWritten(input: ProductInput, products: ProductTable, categories: CategoryTable, id: Id)
    requires id in products && input.sku == Given(products[id].sku)
    ensures Validate(input, products, categories).Failure?
    ensures Sku in Validate(input, products, categories).error
  {
  }

  /** The rule counts soft-deleted rows, so it is stricter than the controller's
      own check among active products: that check can never fire after it. */
  lemma SkuRuleSubsumesActiveCheck(input: ProductInput, products: ProductTable, categories: CategoryTable)
    requires Validate(input, products, categories).Success?
    ensures !SkuTakenByActive(products, Validate(input, products, categories).value.sku, None)
  {
  }

  /** A category id written in capitals names the same category: it passes exactly
      when the id as stored does. */
  lemma UpperCaseCategoryPasses(c: Id, categories: CategoryTable)
    requires Postgres.Stored(c)
    ensures CategoryPasses(Given(Postgres.UpperText(c)), categories) <==> c in categories
  {
    Postgres.StoredIsUuid(c);
    Postgres.UpperKeepsUuid(c);
    Postgres.UuidIgnoresCase(c);
    Postgres.FindBySameValue(categories, Postgres.UpperText(c), c);
    if c in categories {
      Postgres.FindStored(categories, c);
    }
  }

  /** A hyphen, allowed in category names, fails the product name rule. */
  lemma HyphenRejected(s: string, i: nat)
    requires i < |s| && s[i] == '-'
    ensures !NamePasses(Given(s))
  {
  }

  /** A SKU held only by a soft-deleted product still blocks a new one. */
  lemma DeletedSkuStillTaken(input: ProductInput, products: ProductTable, categories: CategoryTable, id: Id)
    requires id in products && !products[id].Active() && input.sku == Given(products[id].sku)
    ensures Validate(input, products, categories).Failure?
  {
  }
}
