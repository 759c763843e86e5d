/** The product table: sort indicators in the header, one numbered row per
    product with its stock badge, and the three quantity buttons. */
module ProductList {
  import opened Wrappers
  import opened Types
  import opened InventoryPage

  // ---------------------------------------------------------------------
  // Header

  /** getSortDirection; the configuration may be absent. */
  function SortDirection(c: Option<SortConfig>, k: SortKey): (r: Option<Direction>)
    ensures r.Some? <==> c.Some? && c.value.key == Some(k)
    ensures r.Some? ==> r.value == c.value.direction
  {
    match c
    case None => None
    case Some(cfg) => if cfg.key == Some(k) then Some(cfg.direction) else None
  }

  /** getSortIndicator: an up arrow for ascending, a down arrow for
      descending, nothing for a column the list is not sorted by. */
  function SortIndicator(c: Option<SortConfig>, k: SortKey): (r: Option<string>)
    ensures r == Some(" ↑") <==> c.Some? && c.value.key == Some(k) && c.value.direction == Ascending
    ensures r == Some(" ↓") <==> c.Some? && c.value.key == Some(k) && c.value.direction == Descending
    ensures r.None? <==> c.None? || c.value.key != Some(k)
  {
    match SortDirection(c, k)
    case None => None
    case Some(d) => Some(if d == Ascending then " ↑" else " ↓")
  }

  /** After a click on a column, that column and no other shows an arrow,
      pointing the way requestSort chose. */
  lemma IndicatorFollowsRequestSort(c: SortConfig, k: SortKey, other: SortKey)
    requires other != k
    ensures SortIndicator(Some(RequestSort(c, k)), k) ==
      Some(if c.key == Some(k) && c.direction == Ascending then " ↓" else " ↑")
    ensures SortIndicator(Some(RequestSort(c, k)), other).None?
  {
  }

  /** The page starts unsorted: no column shows an arrow. */
  lemma NoIndicatorInitially(k: SortKey)
    ensures SortIndicator(Some(InitialSort), k).None?
  {
  }

  // ---------------------------------------------------------------------
  // Rows

  /** A row of the table body */
  datatype Row = EmptyRow(message: string) | ItemRow(number: int, product: Product)

  const NoProducts := "No se encontraron productos"

  /** The table body: one message row for an empty list, otherwise one row
      per product numbered from 1 in list order. */
  function Rows(products: seq<Product>): (r: seq<Row>)
    ensures |products| == 0 ==> r == [EmptyRow(NoProducts)]
    ensures |products| > 0 ==> |r| == |products|
    ensures |products| > 0 ==>
      forall i :: 0 <= i < |r| ==> r[i].ItemRow? && r[i].product == products[i] && r[i].number == i + 1
  {
    if |products| == 0 then [EmptyRow(NoProducts)]
    else seq(|products|, i requires 0 <= i < |products| => ItemRow(i + 1, products[i]))
  }

  /** The two badge styles */
  datatype Badge = InStock | LowStock

  /** The stock badge: the in-stock style only above the threshold */
  function BadgeOf(p: Product): (b: Badge)
    ensures b == LowStock <==> IsLowStock(p)
    ensures b == InStock <==> p.cantidad > LowStockThreshold
  {
    if p.cantidad > 10 then InStock else LowStock
  }

  /** The rows of the low-stock list all carry the low-stock badge. */
  lemma LowStockRowsAreRed(productos: seq<Product>)
    ensures forall p :: p in LowStockProducts(productos) ==> BadgeOf(p) == LowStock
  {
  }

  // ---------------------------------------------------------------------
  // Buttons

  datatype Button = Plus | Minus | Trash

  /** The change each button sends to onUpdateQuantity: plus adds one,
      an enabled minus takes one and never goes below zero, the bin
      empties the stock. */
  function Delta(b: Button, p: Product): (d: int)
    ensures b == Plus ==> p.cantidad + d == p.cantidad + 1
    ensures b == Minus ==> p.cantidad + d == p.cantidad - 1
    ensures b == Minus && !Disabled(b, p) ==> p.cantidad + d >= 0
    ensures b == Trash ==> p.cantidad + d == 0
  {
    match b
    case Plus => 1
    case Minus => -1
    case Trash => -p.cantidad
  }

  /** Only the minus button can be disabled: it is enabled exactly on
      products with stock. */
  function Disabled(b: Button, p: Product): (off: bool)
    ensures b == Minus ==> (!off <==> p.cantidad > 0)
    ensures b != Minus ==> !off
  {
    b == Minus && p.cantidad <= 0
  }
}
