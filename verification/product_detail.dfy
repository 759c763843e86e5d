/** The product detail panel: the editable copy of the product, the
    category select with its add and rename dialogs, cancelling an edit,
    and the stock status line. */
module ProductDetail {
  import opened Wrappers
  import opened JsText
  import opened Types
  import CategoryRules
  import ProductList
  import CategorySelector

  /** editedProduct; a NaN category id (from a non-numeric select value)
      is None */
  datatype Edited = Edited(
    id: string,
    name: string,
    quantity: int,
    description: string,
    categoriaId: Option<int>,
    category: string)

  /** The rename dialog's names: the category's current name and the new one */
  datatype Rename = Rename(original: string, newName: string)

  datatype DetailState = DetailState(
    edited: Edited,
    editing: bool,
    addingCategory: bool,
    newCategory: string,
    categoryError: string,
    editingCategory: bool,
    rename: Rename)

  /** The editable copy of a product; a missing description shows as "" */
  function Projection(p: Product): (e: Edited)
    ensures e.id == p.id && e.name == p.nombre && e.quantity == p.cantidad
    ensures e.categoriaId == Some(p.categoriaId) && e.category == p.categoria
    ensures e.description == (if p.descripcion.Some? then p.descripcion.value else "")
  {
    Edited(p.id, p.nombre, p.cantidad, p.descripcion.GetOr(""), Some(p.categoriaId), p.categoria)
  }

  /** The panel as it opens */
  function Opened(p: Product): DetailState {
    DetailState(Projection(p), false, false, "", "", false, Rename("", ""))
  }

  /** The text inputs of the edit form */
  datatype Input = NameInput | QuantityInput | DescriptionInput

  /** handleChange: the field takes the value, the quantity parsed with
      `Number.parseInt(value) || 0` */
  function HandleChange(s: DetailState, input: Input, value: string): (r: DetailState)
    ensures r.edited.id == s.edited.id && r.edited.categoriaId == s.edited.categoriaId
      && r.edited.category == s.edited.category
    ensures input == NameInput ==> r.edited == s.edited.(name := value)
    ensures input == QuantityInput ==> r.edited == s.edited.(quantity := ParseInt(value).GetOr(0))
    ensures input == DescriptionInput ==> r.edited == s.edited.(description := value)
    ensures r.(edited := s.edited) == s
  {
    match input
    case NameInput => s.(edited := s.edited.(name := value))
    case QuantityInput => s.(edited := s.edited.(quantity := ParseInt(value).GetOr(0)))
    case DescriptionInput => s.(edited := s.edited.(description := value))
  }

  /** handleCancel: the edit is dropped and the copy is the product again */
  function HandleCancel(s: DetailState, p: Product): (r: DetailState)
    ensures r == s.(edited := Projection(p), editing := false)
  {
    s.(edited := Projection(p), editing := false)
  }

  /** Whatever was typed, cancelling gives back the copy the panel opened
      with. */
  lemma CancelRestores(p: Product, inputs: seq<(Input, string)>)
    ensures HandleCancel(TypeAll(Opened(p).(editing := true), inputs), p).edited == Opened(p).edited
  {
  }

  /** A run of edits to the text inputs */
  function TypeAll(s: DetailState, inputs: seq<(Input, string)>): (r: DetailState)
    ensures r.edited.id == s.edited.id
    decreases |inputs|
  {
    if |inputs| == 0 then s else TypeAll(HandleChange(s, inputs[0].0, inputs[0].1), inputs[1..])
  }

  /** `categories.find(c => c.id.toString() === value)?.nombre || ""` */
  function NameOfIdText(categories: seq<Category>, value: string): (r: string)
    ensures forall i :: CategorySelector.FirstWithIdTextAt(categories, value, i) ==> r == categories[i].nombre
    ensures (forall i :: 0 <= i < |categories| ==> IntToString(categories[i].id) != value) ==> r == ""
  {
    match CategorySelector.FirstWithIdText(categories, value)
    case Some(c) => c.nombre
    case None => ""
  }

  /** handleCategoryChange: "nueva" opens the add dialog, "editar" opens
      the rename dialog on the product's category, any other value selects
      that category by id. */
  function HandleCategoryChange(s: DetailState, p: Product, categories: seq<Category>, value: string): (r: DetailState)
    ensures value == "nueva" ==> r == s.(addingCategory := true)
    ensures value == "editar" ==> r == s.(rename := Rename(p.categoria, p.categoria), editingCategory := true)
    ensures value != "nueva" && value != "editar" ==>
      r == s.(edited := s.edited.(categoriaId := ParseInt(value), category := NameOfIdText(categories, value)))
  {
    if value == "nueva" then s.(addingCategory := true)
    else if value == "editar" then s.(rename := Rename(p.categoria, p.categoria), editingCategory := true)
    else s.(edited := s.edited.(categoriaId := ParseInt(value), category := NameOfIdText(categories, value)))
  }

  /** Choosing a listed category by its id text gives that id and name. */
  lemma SelectListedCategory(s: DetailState, p: Product, categories: seq<Category>, k: int)
    requires 0 <= k < |categories|
    requires forall i :: 0 <= i < |categories| && i != k ==> categories[i].id != categories[k].id
    ensures var r := HandleCategoryChange(s, p, categories, IntToString(categories[k].id));
      r.edited.categoriaId == Some(categories[k].id) && r.edited.category == categories[k].nombre
  {
    var v := IntToString(categories[k].id);
    forall j | 0 <= j < k ensures IntToString(categories[j].id) != v {
      CategorySelector.IntToStringInjective(categories[j].id, categories[k].id);
    }
    assert CategorySelector.FirstWithIdTextAt(categories, v, k);
    assert v != "nueva" && v != "editar" by {
      if categories[k].id >= 0 {
        DecimalDigits(categories[k].id);
        assert IsDigit(v[0]);
      }
    }
    ParseIntOfString(categories[k].id);
  }

  /** handleAddCategory with the page's reply: the same checks as the add
      form; a created category becomes the product's. */
  function HandleAddCategory(s: DetailState, categories: seq<Category>, reply: Option<Category>): (r: (DetailState, bool))
    ensures r.1 <==> CategoryRules.CheckNew(categories, s.newCategory).None?
    ensures !r.1 ==> r.0 == s.(categoryError := CategoryRules.CheckNew(categories, s.newCategory).value)
    ensures r.1 && reply.None? ==> r.0 == s
    ensures r.1 && reply.Some? ==>
      r.0.edited == s.edited.(categoriaId := Some(reply.value.id), category := reply.value.nombre)
    ensures r.1 && reply.Some? ==>
      r.0 == s.(edited := r.0.edited, addingCategory := false, newCategory := "", categoryError := "")
  {
    match CategoryRules.CheckNew(categories, s.newCategory)
    case Some(e) => (s.(categoryError := e), false)
    case None =>
      match reply
      case None => (s, true)
      case Some(c) =>
        (s.(edited := s.edited.(categoriaId := Some(c.id), category := c.nombre), newCategory := "",
            addingCategory := false, categoryError := ""), true)
  }

  /** handleEditCategory: the rename is sent (old and new name) only when
      it passes the rename check; the dialog then closes. */
  function HandleEditCategory(s: DetailState, categories: seq<Category>): (r: (DetailState, Option<Rename>))
    ensures r.1.Some? <==> CategoryRules.CheckRename(categories, s.rename.original, s.rename.newName).None?
    ensures r.1.Some? ==> r.1.value == s.rename
    ensures r.1.Some? ==> r.0 == s.(editingCategory := false, categoryError := "")
    ensures r.1.None? ==>
      r.0 == s.(categoryError := CategoryRules.CheckRename(categories, s.rename.original, s.rename.newName).value)
  {
    match CategoryRules.CheckRename(categories, s.rename.original, s.rename.newName)
    case Some(e) => (s.(categoryError := e), None)
    case None => (s.(editingCategory := false, categoryError := ""), Some(s.rename))
  }

  /** Opening the rename dialog and confirming it unchanged sends a rename
      to the same name, provided no other category shares it ignoring case. */
  lemma UnchangedRenameIsSent(s: DetailState, p: Product, categories: seq<Category>)
    requires !IsBlank(p.categoria)
    requires forall i :: 0 <= i < |categories| && categories[i].nombre != p.categoria ==>
      !CategoryRules.SameIgnoringCase(categories[i].nombre, p.categoria)
    ensures HandleEditCategory(HandleCategoryChange(s, p, categories, "editar"), categories).1
      == Some(Rename(p.categoria, p.categoria))
  {
    CategoryRules.RenameToCaseVariantAllowed(categories, p.categoria, p.categoria);
  }

  /** handleSave: the edited copy is handed to the page and editing ends */
  function HandleSave(s: DetailState): (r: (DetailState, Edited))
    ensures r.1 == s.edited && r.0 == s.(editing := false)
  {
    (s.(editing := false), s.edited)
  }

  /** The stock status line */
  function StatusLabel(p: Product): (shown: string)
    ensures shown == "Stock Bajo" <==> IsLowStock(p)
    ensures shown == "En Stock" <==> !IsLowStock(p)
  {
    if p.cantidad > 10 then "En Stock" else "Stock Bajo"
  }

  /** The status line and the list's badge always agree. */
  lemma StatusMatchesBadge(p: Product)
    ensures StatusLabel(p) == "En Stock" <==> ProductList.BadgeOf(p) == ProductList.InStock
  {
  }
}
