/** The list logic of the main inventory page: the low-stock tab, the
    column sort and its toggle, the local replacement after a quantity
    change, the low-stock search, and the category rename lookup. */
module InventoryPage {
  import opened Wrappers
  import opened JsText
  import opened Types
  import opened Sorting

  // ---------------------------------------------------------------------
  // Filtering

  /** Array.prototype.filter */
  function Filter<T(!new)>(s: seq<T>, p: T -> bool): (r: seq<T>)
    ensures |r| <= |s|
    ensures forall x :: x in r <==> x in s && p(x)
  {
    if |s| == 0 then []
    else
      var init := s[..|s| - 1];
      var last := s[|s| - 1];
      assert s == init + [last];
      Filter(init, p) + (if p(last) then [last] else [])
  }

  /** Filtering a concatenation filters the parts: kept elements stay in
      their original order. */
  lemma {:induction false} FilterConcat<T(!new)>(s: seq<T>, t: seq<T>, p: T -> bool)
    ensures Filter(s + t, p) == Filter(s, p) + Filter(t, p)
    decreases |t|
  {
    if |t| > 0 {
      var init := t[..|t| - 1];
      assert s + t == (s + init) + [t[|t| - 1]];
      FilterConcat(s, init, p);
    } else {
      assert s + t == s;
    }
  }

  /** Elements all of which pass are kept whole. */
  lemma {:induction false} FilterAll<T(!new)>(s: seq<T>, p: T -> bool)
    requires forall i :: 0 <= i < |s| ==> p(s[i])
    ensures Filter(s, p) == s
    decreases |s|
  {
    if |s| > 0 {
      var init := s[..|s| - 1];
      assert forall i :: 0 <= i < |init| ==> init[i] == s[i];
      FilterAll(init, p);
      assert p(s[|s| - 1]);
      assert s == init + [s[|s| - 1]];
    }
  }

  /** `productos.filter(p => p.cantidad <= LOW_STOCK_THRESHOLD)` */
  function LowStockProducts(productos: seq<Product>): (r: seq<Product>)
    ensures forall p :: p in r <==> p in productos && p.cantidad <= 10
  {
    Filter(productos, IsLowStock)
  }

  /** The low-stock tab's search: the term, lower-cased, occurs in the
      lower-cased name, id or category name. */
  predicate MatchesSearch(p: Product, term: string) {
    var t := ToLower(term);
    Includes(ToLower(p.nombre), t) || Includes(ToLower(p.id), t) || Includes(ToLower(p.categoria), t)
  }

  function LowStockSearch(productos: seq<Product>, term: string): (r: seq<Product>)
    ensures forall p :: p in r <==>
      && p in productos
      && p.cantidad <= 10
      && (|| Contains(ToLower(p.nombre), ToLower(term))
          || Contains(ToLower(p.id), ToLower(term))
          || Contains(ToLower(p.categoria), ToLower(term)))
  {
    var r := Filter(LowStockProducts(productos), (p: Product) => MatchesSearch(p, term));
    forall p: Product ensures MatchesSearch(p, term) <==>
      Contains(ToLower(p.nombre), ToLower(term)) || Contains(ToLower(p.id), ToLower(term))
      || Contains(ToLower(p.categoria), ToLower(term))
    {
      IncludesIffOccurs(ToLower(p.nombre), ToLower(term));
      IncludesIffOccurs(ToLower(p.id), ToLower(term));
      IncludesIffOccurs(ToLower(p.categoria), ToLower(term));
    }
    r
  }

  /** An empty search keeps the whole low-stock list. */
  lemma EmptySearchKeepsAll(productos: seq<Product>)
    ensures LowStockSearch(productos, "") == LowStockProducts(productos)
  {
    var low := LowStockProducts(productos);
    forall i | 0 <= i < |low| ensures MatchesSearch(low[i], "") {
      IncludesEmpty(ToLower(low[i].nombre));
    }
    FilterAll(low, (p: Product) => MatchesSearch(p, ""));
  }

  // ---------------------------------------------------------------------
  // Sorting

  /** The columns the table header can sort by */
  datatype SortKey = Nombre | Categoria | Cantidad

  datatype Direction = Ascending | Descending

  /** The page's sortConfig; no key means the list is shown as loaded. */
  datatype SortConfig = SortConfig(key: Option<SortKey>, direction: Direction)

  const InitialSort := SortConfig(None, Ascending)

  /** requestSort: descending only when the same key is clicked while
      ascending; ascending otherwise. */
  function RequestSort(c: SortConfig, k: SortKey): (r: SortConfig)
    ensures r.key == Some(k)
    ensures r.direction == Descending <==> c.key == Some(k) && c.direction == Ascending
  {
    SortConfig(Some(k), if c.key == Some(k) && c.direction == Ascending then Descending else Ascending)
  }

  /** Clicking the same column again flips the direction, so a third click
      gives back what the first gave. */
  lemma RequestSortAlternates(c: SortConfig, k: SortKey)
    ensures RequestSort(RequestSort(c, k), k).direction != RequestSort(c, k).direction
    ensures RequestSort(RequestSort(RequestSort(c, k), k), k) == RequestSort(c, k)
  {
  }

  /** From any other column, or from the start, clicks on one column go
      ascending, descending, ascending. */
  lemma ThreeClicks(c: SortConfig, k: SortKey)
    requires c.key != Some(k)
    ensures RequestSort(c, k).direction == Ascending
    ensures RequestSort(RequestSort(c, k), k).direction == Descending
    ensures RequestSort(RequestSort(RequestSort(c, k), k), k).direction == Ascending
  {
  }

  /** `a[key] < b[key]`: numbers by value; strings by code point, where
      JavaScript compares UTF-16 code units (the two orders differ only
      between characters above U+FFFF and characters in U+E000-U+FFFF) */
  predicate KeyLess(k: SortKey, a: Product, b: Product) {
    match k
    case Nombre => StrLess(a.nombre, b.nombre)
    case Categoria => StrLess(a.categoria, b.categoria)
    case Cantidad => a.cantidad < b.cantidad
  }

  lemma KeyLessAsymmetric(k: SortKey, a: Product, b: Product)
    ensures KeyLess(k, a, b) ==> !KeyLess(k, b, a)
  {
    match k
    case Nombre => StrLessAsymmetric(a.nombre, b.nombre);
    case Categoria => StrLessAsymmetric(a.categoria, b.categoria);
    case Cantidad =>
  }

  /** The compare function handed to sort */
  function Compare(k: SortKey, d: Direction, a: Product, b: Product): (r: int)
    ensures -1 <= r <= 1
    ensures r == 0 <==> !KeyLess(k, a, b) && !KeyLess(k, b, a)
  {
    if KeyLess(k, a, b) then (if d == Ascending then -1 else 1)
    else if KeyLess(k, b, a) then (if d == Ascending then 1 else -1)
    else 0
  }

  lemma CompareAntisymmetric(k: SortKey, d: Direction)
    ensures Antisymmetric((a: Product, b: Product) => Compare(k, d, a, b))
    ensures forall a: Product, b: Product :: Compare(k, d, a, b) < 0 ==> Compare(k, d, b, a) > 0
  {
    forall a: Product, b: Product ensures Compare(k, d, a, b) > 0 ==> Compare(k, d, b, a) < 0 {
      KeyLessAsymmetric(k, a, b);
    }
    forall a: Product, b: Product ensures Compare(k, d, a, b) < 0 ==> Compare(k, d, b, a) > 0 {
      KeyLessAsymmetric(k, a, b);
      KeyLessAsymmetric(k, b, a);
    }
  }

  /** sortedProducts: a copy of the list, sorted when a key is set */
  function SortedProducts(productos: seq<Product>, c: SortConfig): (r: seq<Product>)
    ensures multiset(r) == multiset(productos) && |r| == |productos|
    ensures c.key.None? ==> r == productos
    ensures c.key.Some? && c.direction == Ascending ==>
      forall i :: 0 < i < |r| ==> !KeyLess(c.key.value, r[i], r[i - 1])
    ensures c.key.Some? && c.direction == Descending ==>
      forall i :: 0 < i < |r| ==> !KeyLess(c.key.value, r[i - 1], r[i])
  {
    match c.key
    case None => productos
    case Some(k) =>
      var cmp := (a: Product, b: Product) => Compare(k, c.direction, a, b);
      CompareAntisymmetric(k, c.direction);
      var r := Sort(productos, cmp);
      assert forall i :: 0 < i < |r| ==> cmp(r[i - 1], r[i]) <= 0;
      forall i | 0 < i < |r| ensures KeyLess(k, r[i - 1], r[i]) ==> !KeyLess(k, r[i], r[i - 1]) {
        KeyLessAsymmetric(k, r[i - 1], r[i]);
      }
      r
  }

  // ---------------------------------------------------------------------
  // Updates

  /** `productos.map(p => p.id === id ? data : p)` */
  function ReplaceById(productos: seq<Product>, id: string, data: Product): (r: seq<Product>)
    ensures |r| == |productos|
    ensures forall i :: 0 <= i < |r| && productos[i].id != id ==> r[i] == productos[i]
    ensures forall i :: 0 <= i < |r| && productos[i].id == id ==> r[i] == data
  {
    seq(|productos|, i requires 0 <= i < |productos| => if productos[i].id == id then data else productos[i])
  }

  /** With unique ids, a response for the same id changes exactly one
      entry, keeps the ids in place and replacing twice is replacing once. */
  lemma ReplaceKeepsIds(productos: seq<Product>, id: string, data: Product)
    requires data.id == id
    ensures var r := ReplaceById(productos, id, data);
      (forall i :: 0 <= i < |r| ==> r[i].id == productos[i].id)
      && ReplaceById(r, id, data) == r
  {
  }

  /** The entry that changes is the one with the id, and only it. */
  lemma ReplaceChangesOne(productos: seq<Product>, k: int, data: Product)
    requires 0 <= k < |productos|
    requires forall i :: 0 <= i < |productos| && i != k ==> productos[i].id != productos[k].id
    ensures ReplaceById(productos, productos[k].id, data) == productos[k := data]
  {
  }

  // ---------------------------------------------------------------------
  // Category rename

  /** handleEditCategory: the category is found by exact name; without it
      an error is shown and no request is made. */
  datatype EditRequest = NotFound | Put(id: int, nombre: string)

  function EditCategory(categorias: seq<Category>, oldName: string, newName: string): (r: EditRequest)
    ensures r.NotFound? <==> forall i :: 0 <= i < |categorias| ==> categorias[i].nombre != oldName
    ensures r.Put? ==> r.nombre == newName
    ensures r.Put? ==>
      exists i :: 0 <= i < |categorias| && categorias[i].nombre == oldName && categorias[i].id == r.id
        && forall j :: 0 <= j < i ==> categorias[j].nombre != oldName
  {
    if |categorias| == 0 then NotFound
    else if categorias[0].nombre == oldName then Put(categorias[0].id, newName)
    else
      var r := EditCategory(categorias[1..], oldName, newName);
      assert forall i :: 1 <= i < |categorias| ==> categorias[i] == categorias[1..][i - 1];
      if r.Put? then
        var i :| 0 <= i < |categorias[1..]| && categorias[1..][i].nombre == oldName
          && categorias[1..][i].id == r.id && forall j :: 0 <= j < i ==> categorias[1..][j].nombre != oldName;
        assert categorias[i + 1].nombre == oldName;
        r
      else r
  }
}
