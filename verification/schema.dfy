/** The rows of the primary database's `categories` and `products` tables, as
    the migrations declare them: UUID primary keys, soft-delete timestamps,
    a unique `sku` and a `decimal(10,2)` price held here as integer cents. */
module Schema {
  import opened Common

  type Id = string

  /** Instants are epoch seconds (Carbon values the model does not render as text). */
  type Instant = int

  datatype CategoryRow = CategoryRow(name: string, createdAt: Instant, updatedAt: Instant, deletedAt: Option<Instant>)
  {
    /** The row is visible to Eloquent queries: `SoftDeletes` hides rows with `deleted_at` set. */
    predicate Active()
    {
      deletedAt.None?
    }
  }

  datatype ProductRow = ProductRow(
    sku: string,
    name: string,
    price: int,
    stock: int,
    categoryId: Id,
    createdAt: Instant,
    updatedAt: Instant,
    deletedAt: Option<Instant>)
  {
    predicate Active()
    {
      deletedAt.None?
    }
  }

  type CategoryTable = map<Id, CategoryRow>

  type ProductTable = map<Id, ProductRow>

  /** Some active category other than `except` is called `name`. */
  predicate CategoryNameTaken(table: CategoryTable, name: string, except: Option<Id>)
  {
    exists id :: id in table && table[id].Active() && table[id].name == name && except != Some(id)
  }

  /** Some active product other than `except` has the SKU `sku`. */
  predicate SkuTakenByActive(table: ProductTable, sku: string, except: Option<Id>)
  {
    exists id :: id in table && table[id].Active() && table[id].sku == sku && except != Some(id)
  }

  /** Some row, soft-deleted or not, other than `except` has the SKU `sku`. */
  predicate SkuTakenByAny(table: ProductTable, sku: string, except: Option<Id>)
  {
    exists id :: id in table && table[id].sku == sku && except != Some(id)
  }

  /** The values fit the `products` columns: `string` is varchar(255), `decimal(10,2)`
      holds fewer than 10^10 cents in magnitude and `integer` is a 32-bit integer. */
  predicate FitsProductColumns(sku: string, name: string, price: int, stock: int)
  {
    && |sku| <= 255 && |name| <= 255
    && -10_000_000_000 < price < 10_000_000_000
    && -0x8000_0000 <= stock < 0x8000_0000
  }
}
