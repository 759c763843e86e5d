/** The product collection route: POST validates the body, allocates the
    next P id and inserts the row; GET builds the filtered listing query. */
module ProductosRoute {
  import opened Wrappers
  import opened JsText
  import opened PgCast
  import opened Types
  import opened Http
  import opened ProductIds

  // ---------------------------------------------------------------------
  // POST /api/productos

  /** The JSON body of a creation request; absent fields are None. */
  datatype CreateRequest = CreateRequest(
    nombre: Option<string>,
    cantidad: int,
    descripcion: Option<string>,
    categoriaId: Option<int>)

  const NameRequired := "El nombre del producto es obligatorio"
  const QuantityNegative := "La cantidad no puede ser negativa"
  const CategoryRequired := "La categoría es obligatoria"
  const CreateFailed := "Error al crear producto"

  /** `!producto.nombre || producto.nombre.trim() === ""` */
  predicate NameMissing(req: CreateRequest) {
    req.nombre.None? || Trim(req.nombre.value) == ""
  }

  /** `!producto.categoria_id`: absent, or the falsy id 0 */
  predicate CategoryMissing(req: CreateRequest) {
    req.categoriaId.None? || req.categoriaId.value == 0
  }

  /** The three checks in the order the handler makes them; only the first
      failure is reported. */
  function Validate(req: CreateRequest): (r: Option<string>)
    ensures r == Some(NameRequired) <==> req.nombre.None? || IsBlank(req.nombre.value)
    ensures r == Some(QuantityNegative) <==>
      req.nombre.Some? && !IsBlank(req.nombre.value) && req.cantidad < 0
    ensures r == Some(CategoryRequired) <==>
      req.nombre.Some? && !IsBlank(req.nombre.value) && req.cantidad >= 0 && CategoryMissing(req)
    ensures r.None? <==>
      req.nombre.Some? && !IsBlank(req.nombre.value) && req.cantidad >= 0 && !CategoryMissing(req)
  {
    TrimEmptyIffBlank(req.nombre.GetOr(""));
    if NameMissing(req) then Some(NameRequired)
    else if req.cantidad < 0 then Some(QuantityNegative)
    else if CategoryMissing(req) then Some(CategoryRequired)
    else None
  }

  /** The row the INSERT writes for a request that passed validation */
  function NewRow(id: string, req: CreateRequest): ProductRow
    requires Validate(req).None?
  {
    ProductRow(id, req.nombre.value, req.cantidad, req.descripcion, req.categoriaId.value)
  }

  /** `INSERT INTO productos ... RETURNING *` followed by the category name
      lookup: the primary key, the INTEGER range of cantidad and the
      foreign key to categorias are enforced by the database, and any
      violation surfaces as the handler's 500. */
  function Insert(store: Store, row: ProductRow): (res: (Response<Product>, Store))
    ensures res.0.Created? <==>
      row.id !in Ids(store.productos) && Int4Min <= row.cantidad <= Int4Max
      && CategoryById(store.categorias, row.categoriaId).Some?
    ensures res.0.Created? ==>
      res.1 == store.(productos := store.productos + [row])
      && res.0.body == WithCategory(row, CategoryById(store.categorias, row.categoriaId).value.nombre)
    ensures !res.0.Created? ==> res.1 == store && res.0 == ServerError(CreateFailed)
  {
    if row.id in Ids(store.productos) || !(Int4Min <= row.cantidad <= Int4Max) then
      (ServerError(CreateFailed), store)
    else
      match CategoryById(store.categorias, row.categoriaId)
      case None => (ServerError(CreateFailed), store)
      case Some(c) =>
        (Created(WithCategory(row, c.nombre)), store.(productos := store.productos + [row]))
  }

  /** The POST handler over one snapshot of the store */
  function CreateProduct(store: Store, req: CreateRequest): (res: (Response<Product>, Store))
    ensures Validate(req).Some? ==> res == (BadRequest(Validate(req).value), store)
    ensures !res.0.Created? ==> res.1 == store
    ensures res.0.Created? ==>
      Validate(req).None?
      && res.1.categorias == store.categorias
      && res.1.nextCategoriaId == store.nextCategoriaId
      && |res.1.productos| == |store.productos| + 1
      && res.1.productos[..|store.productos|] == store.productos
      && res.1.productos[|store.productos|] == NewRow(res.0.body.id, req)
  {
    match Validate(req)
    case Some(e) => (BadRequest(e), store)
    case None =>
      match Allocate(Ids(store.productos), Ids(store.productos))
      case None => (ServerError(CreateFailed), store)
      case Some(a) =>
        var res := Insert(store, NewRow(a.id, req));
        assert res.0.Created? ==> res.1.productos[..|store.productos|] == store.productos;
        res
  }

  /** The id a successful POST gives the new product */
  function CreatedId(store: Store, req: CreateRequest): string
    requires CreateProduct(store, req).0.Created?
  {
    CreateProduct(store, req).0.body.id
  }

  /** A valid request fails only when the MAX query cannot cast a suffix,
      the quantity is outside INTEGER, or the category does not exist;
      never because the allocated id is taken. The new id is the maximum
      suffix plus one. */
  lemma CreateSucceedsIff(store: Store, req: CreateRequest)
    requires Validate(req).None?
    ensures CreateProduct(store, req).0.Created? <==>
      !MaxSuffix(Ids(store.productos)).CastFailure?
      && Int4Min <= req.cantidad <= Int4Max
      && CategoryById(store.categorias, req.categoriaId.value).Some?
    ensures CreateProduct(store, req).0.Created? ==>
      CreatedId(store, req) == FormatId(NextNumber(Ids(store.productos)))
  {
    var ids := Ids(store.productos);
    if !MaxSuffix(ids).CastFailure? {
      AllocateSingleSnapshot(ids);
    }
  }

  /** Successful creations keep the primary key and the foreign key. */
  lemma CreateKeepsKeys(store: Store, req: CreateRequest)
    requires UniqueIds(store.productos) && Referenced(store.productos, store.categorias)
    ensures var after := CreateProduct(store, req).1;
      UniqueIds(after.productos) && Referenced(after.productos, after.categorias)
  {
    var res := CreateProduct(store, req);
    if res.0.Created? {
      var row := res.1.productos[|store.productos|];
      assert row.id !in Ids(store.productos);
      var c := CategoryById(store.categorias, row.categoriaId).value;
      assert c in store.categorias && c.id == row.categoriaId;
      forall i, j | 0 <= i < j < |res.1.productos|
        ensures res.1.productos[i].id != res.1.productos[j].id
      {
        if j == |store.productos| {
          assert res.1.productos[i] == store.productos[i];
          assert Ids(store.productos)[i] == store.productos[i].id;
        } else {
          assert res.1.productos[i] == store.productos[i];
          assert res.1.productos[j] == store.productos[j];
        }
      }
      forall i | 0 <= i < |res.1.productos|
        ensures exists c :: c in res.1.categorias && c.id == res.1.productos[i].categoriaId
      {
        if i < |store.productos| {
          assert res.1.productos[i] == store.productos[i];
        } else {
          assert c in res.1.categorias;
        }
      }
    }
  }

  /** The new product's suffix lies strictly above every suffix already in
      the table, so successive creations number upwards (while the numbers
      stay within INTEGER and are not negative). */
  lemma CreatedIdAboveExisting(store: Store, req: CreateRequest)
    requires CreateProduct(store, req).0.Created?
    requires 0 <= NextNumber(Ids(store.productos)) <= Int4Max
    ensures Suffix(CreatedId(store, req)).Some?
    ensures forall i :: 0 <= i < |store.productos| && IsPId(store.productos[i].id) ==>
      Suffix(store.productos[i].id).Some?
      && Suffix(store.productos[i].id).value < Suffix(CreatedId(store, req)).value
  {
    CreateSucceedsIff(store, req);
    SuffixesBelow(store.productos, CreatedId(store, req));
  }

  lemma SuffixesBelow(rows: seq<ProductRow>, id: string)
    requires !MaxSuffix(Ids(rows)).CastFailure?
    requires 0 <= NextNumber(Ids(rows)) <= Int4Max
    requires id == FormatId(NextNumber(Ids(rows)))
    ensures Suffix(id).Some?
    ensures forall i :: 0 <= i < |rows| && IsPId(rows[i].id) ==>
      Suffix(rows[i].id).Some? && Suffix(rows[i].id).value < Suffix(id).value
  {
    var ids := Ids(rows);
    AllocatedAboveExisting(ids);
    forall i | 0 <= i < |rows| && IsPId(rows[i].id)
      ensures Suffix(rows[i].id).Some? && Suffix(rows[i].id).value < Suffix(id).value
    {
      assert ids[i] == rows[i].id;
    }
  }

  /** A run of POSTs, each applied to the store the previous one left */
  function CreateAll(store: Store, reqs: seq<CreateRequest>): (r: (seq<Response<Product>>, Store))
    ensures |r.0| == |reqs|
    ensures r.1.categorias == store.categorias
    ensures |r.1.productos| >= |store.productos|
    ensures r.1.productos[..|store.productos|] == store.productos
    decreases |reqs|
  {
    if |reqs| == 0 then ([], store)
    else
      var (resp, next) := CreateProduct(store, reqs[0]);
      var (rest, last) := CreateAll(next, reqs[1..]);
      assert last.productos[..|store.productos|] == next.productos[..|store.productos|];
      ([resp] + rest, last)
  }

  /** Serial creation keeps ids unique and every row's category existing;
      rows already present are never altered. */
  lemma {:induction false} CreateAllKeepsKeys(store: Store, reqs: seq<CreateRequest>)
    requires UniqueIds(store.productos) && Referenced(store.productos, store.categorias)
    ensures var last := CreateAll(store, reqs).1;
      UniqueIds(last.productos) && Referenced(last.productos, last.categorias)
    decreases |reqs|
  {
    if |reqs| > 0 {
      CreateKeepsKeys(store, reqs[0]);
      CreateAllKeepsKeys(CreateProduct(store, reqs[0]).1, reqs[1..]);
    }
  }

  // ---------------------------------------------------------------------
  // GET /api/productos

  /** The query-string parameters; searchParams.get gives null for an
      absent one. */
  datatype Filters = Filters(categoria: Option<string>, busqueda: Option<string>, stockBajo: Option<string>)

  /** `if (param)`: present and not the empty string */
  predicate Given(p: Option<string>) {
    p.Some? && p.value != ""
  }

  /** A WHERE condition appended to the query, with its placeholder number */
  datatype Clause = CategoryIs(placeholder: nat) | Matches(placeholder: nat) | LowStockOnly

  /** The SQL text, the bound values and the next placeholder number */
  datatype Builder = Builder(clauses: seq<Clause>, params: seq<string>, paramIndex: nat)

  const SelectAll :=
    "\n      SELECT p.*, c.nombre as categoria\n      FROM productos p\n"
    + "      JOIN categorias c ON p.categoria_id = c.id\n      WHERE 1=1\n    "
  const OrderById := " ORDER BY p.id"

  function Render(c: Clause): string {
    match c
    case CategoryIs(i) => " AND c.id = $" + IntToString(i)
    case Matches(i) =>
      var ph := "$" + IntToString(i);
      " AND (p.nombre ILIKE " + ph + " OR p.id ILIKE " + ph + " OR c.nombre ILIKE " + ph + ")"
    case LowStockOnly => " AND p.cantidad <= " + IntToString(LowStockThreshold)
  }

  function RenderAll(cs: seq<Clause>): string {
    if |cs| == 0 then "" else RenderAll(cs[..|cs| - 1]) + Render(cs[|cs| - 1])
  }

  /** `$n` names the n-th bound value: the numbering the builder keeps */
  predicate WellNumbered(b: Builder) {
    && b.paramIndex == |b.params| + 1
    && forall k :: 0 <= k < |b.clauses| && !b.clauses[k].LowStockOnly? ==>
         1 <= b.clauses[k].placeholder <= |b.params|
  }

  /** Appends a clause whose placeholder takes the next number, binding v */
  function Bind(b: Builder, c: Clause, v: string): (r: Builder)
    requires WellNumbered(b) && !c.LowStockOnly? && c.placeholder == b.paramIndex
    ensures WellNumbered(r)
    ensures |r.params| == |b.params| + 1 && r.params[c.placeholder - 1] == v
  {
    Builder(b.clauses + [c], b.params + [v], b.paramIndex + 1)
  }

  /** The three filters, applied in the handler's order */
  function Build(f: Filters): (b: Builder)
    ensures WellNumbered(b)
  {
    var b0 := Builder([], [], 1);
    var b1 := if Given(f.categoria) then Bind(b0, CategoryIs(b0.paramIndex), f.categoria.value) else b0;
    var b2 := if Given(f.busqueda) then Bind(b1, Matches(b1.paramIndex), "%" + f.busqueda.value + "%") else b1;
    if f.stockBajo == Some("true") then b2.(clauses := b2.clauses + [LowStockOnly]) else b2
  }

  /** The text sent to the database */
  function Sql(f: Filters): (r: string)
    ensures |r| >= |SelectAll| + |OrderById|
    ensures r[..|SelectAll|] == SelectAll && r[|r| - |OrderById|..] == OrderById
  {
    SelectAll + RenderAll(Build(f).clauses) + OrderById
  }

  /** One bound value per given filter; the category's placeholder is $1,
      the search's is $2 after a category and $1 without; the search value
      is wrapped in %; the low-stock condition is there only for the exact
      text "true"; the ordering closes the query. */
  lemma BuildShape(f: Filters)
    ensures var b := Build(f);
      && |b.params| == (if Given(f.categoria) then 1 else 0) + (if Given(f.busqueda) then 1 else 0)
      && (CategoryIs(1) in b.clauses <==> Given(f.categoria))
      && (Given(f.categoria) ==> b.params[0] == f.categoria.value)
      && (Given(f.busqueda) <==> Matches(if Given(f.categoria) then 2 else 1) in b.clauses)
      && (Given(f.busqueda) ==> b.params[|b.params| - 1] == "%" + f.busqueda.value + "%")
      && (LowStockOnly in b.clauses <==> f.stockBajo == Some("true"))
    ensures Sql(f)[|Sql(f)| - |OrderById|..] == OrderById
  {
  }

  /** Every placeholder in the query refers to a value bound for it: the
      category to its id, the search to its pattern. */
  lemma PlaceholdersBind(f: Filters)
    ensures var b := Build(f);
      forall k :: 0 <= k < |b.clauses| ==>
        match b.clauses[k]
        case CategoryIs(i) => Given(f.categoria) && b.params[i - 1] == f.categoria.value
        case Matches(i) => Given(f.busqueda) && b.params[i - 1] == "%" + f.busqueda.value + "%"
        case LowStockOnly => f.stockBajo == Some("true")
  {
  }
}
