/** The records of the inventory (Categoria, Producto and
    ProductoConCategoria) and the two tables the API routes read and
    write. */
module Types {
  import opened Wrappers

  /** Products at or under this quantity are low on stock. */
  const LowStockThreshold := 10

  datatype Category = Category(id: int, nombre: string)

  /** A row of the productos table (the creation timestamp is left out) */
  datatype ProductRow = ProductRow(
    id: string,
    nombre: string,
    cantidad: int,
    descripcion: Option<string>,
    categoriaId: int)

  /** A product together with the name of its category, as the API returns it */
  datatype Product = Product(
    id: string,
    nombre: string,
    cantidad: int,
    descripcion: Option<string>,
    categoriaId: int,
    categoria: string)

  /** Both tables; nextCategoriaId is the next value of the categorias id
      sequence (SERIAL). */
  datatype Store = Store(categorias: seq<Category>, nextCategoriaId: int, productos: seq<ProductRow>)

  predicate IsLowStock(p: Product) {
    p.cantidad <= LowStockThreshold
  }

  /** The id column of the productos table */
  function Ids(rows: seq<ProductRow>): (ids: seq<string>)
    ensures |ids| == |rows|
    ensures forall i :: 0 <= i < |rows| ==> ids[i] == rows[i].id
  {
    seq(|rows|, i requires 0 <= i < |rows| => rows[i].id)
  }

  /** The primary key of productos: no id occurs twice */
  predicate UniqueIds(rows: seq<ProductRow>) {
    forall i, j :: 0 <= i < j < |rows| ==> rows[i].id != rows[j].id
  }

  /** The foreign key of productos: every row names an existing category */
  predicate Referenced(rows: seq<ProductRow>, cats: seq<Category>) {
    forall i :: 0 <= i < |rows| ==> exists c :: c in cats && c.id == rows[i].categoriaId
  }

  /** The row together with the given category name */
  function WithCategory(row: ProductRow, categoria: string): Product {
    Product(row.id, row.nombre, row.cantidad, row.descripcion, row.categoriaId, categoria)
  }

  /** `SELECT ... FROM categorias WHERE id = $1`: the first row with that id */
  function CategoryById(cats: seq<Category>, id: int): (r: Option<Category>)
    ensures r.Some? ==> r.value in cats && r.value.id == id
    ensures r.None? <==> forall i :: 0 <= i < |cats| ==> cats[i].id != id
  {
    if |cats| == 0 then None
    else if cats[0].id == id then Some(cats[0])
    else CategoryById(cats[1..], id)
  }
}

/** The status-and-body shape of the route handlers' JSON responses. */
module Http {

  datatype Response<T> =
    | Created(body: T)
    | BadRequest(error: string)
    | Conflict(error: string)
    | ServerError(error: string)
  {
    function Status(): int {
      match this
      case Created(_) => 201
      case BadRequest(_) => 400
      case Conflict(_) => 409
      case ServerError(_) => 500
    }
  }
}
