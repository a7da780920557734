/** The `Product` record and the in-memory product list. */
module Products {
  import opened Wrappers

  /** A calendar day, counted in days since 1970-01-01 (`LocalDate.toEpochDay`). */
  type Day = int

  /** One inventory record. `unitPrice` is a whole amount rather than a `double`;
      an absent `expirationDate` means the product does not expire. */
  datatype Product = Product(
    id: int,
    name: string,
    category: string,
    unitPrice: int,
    expirationDate: Option<Day>,
    quantityInStock: int,
    creationDate: Day,
    updateDate: Day)

  /** The service's backing list, in insertion order. */
  type Store = seq<Product>

  /** The stock level `restoreProductStock` writes back. */
  const RestockQuantity: int := 10

  /** No two products in the store share an id. */
  ghost predicate UniqueIds(s: Store) {
    forall i, j :: 0 <= i < j < |s| ==> s[i].id != s[j].id
  }

  /** Some product in the store carries `id`. */
  ghost predicate HasId(s: Store, id: int) {
    exists i :: 0 <= i < |s| && s[i].id == id
  }

  /** The list the service's constructor preloads, with every date-of-record set to `today`. */
  function Preloaded(today: Day): (s: Store)
    ensures |s| == 11
    ensures forall i :: 0 <= i < |s| ==> s[i].id == i + 1
    ensures forall i :: 0 <= i < |s| ==> s[i].creationDate == s[i].updateDate == today
  {
    [ Product(1, "Mouse", "Electronics", 10, None, 2, today, today),
      Product(2, "Pants", "Clothing", 11, None, 2, today, today),
      Product(3, "Keyboard", "Electronics", 12, None, 4, today, today),
      Product(4, "Speaker", "Electronics", 12, None, 6, today, today),
      Product(5, "PC", "Electronics", 14, None, 2, today, today),
      Product(6, "Socks", "Clothing", 12, None, 4, today, today),
      Product(7, "Lamp", "Electronics", 10, None, 0, today, today),
      Product(8, "Cake", "Food", 30, Some(20188), 2, today, today),
      Product(9, "Pasta", "Food", 20, Some(20187), 2, today, today),
      Product(10, "Tacos", "Food", 300, Some(20215), 4, today, today),
      Product(11, "Hat", "Clothing", 14, None, 6, today, today) ]
  }
}
