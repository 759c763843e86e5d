/** The checks the two client forms make before asking the server to add
    or rename a category: a blank name is refused, and so is a name equal,
    ignoring case, to an existing one; a rename does not count the
    category being renamed. */
module CategoryRules {
  import opened Wrappers
  import opened JsText
  import opened Types
  import CategoriasRoute

  const NameRequired := "El nombre de la categoría es obligatorio"
  const AlreadyExists := "Esta categoría ya existe"

  /** `a.toLowerCase() === b.toLowerCase()` */
  predicate SameIgnoringCase(a: string, b: string) {
    ToLower(a) == ToLower(b)
  }

  /** Array.prototype.find: the first element satisfying p */
  function Find(cats: seq<Category>, p: Category -> bool): (r: Option<Category>)
    ensures r.Some? ==> r.value in cats && p(r.value)
    ensures r.None? <==> forall i :: 0 <= i < |cats| ==> !p(cats[i])
  {
    if |cats| == 0 then None
    else if p(cats[0]) then Some(cats[0])
    else
      var r := Find(cats[1..], p);
      assert forall i :: 1 <= i < |cats| ==> cats[i] == cats[1..][i - 1];
      r
  }

  /** handleAddCategory's checks (add-product form and product detail):
      None means the name is sent to the server. */
  function CheckNew(cats: seq<Category>, name: string): (r: Option<string>)
    ensures r == Some(NameRequired) <==> IsBlank(name)
    ensures r == Some(AlreadyExists) <==>
      !IsBlank(name) && exists i :: 0 <= i < |cats| && SameIgnoringCase(cats[i].nombre, name)
    ensures r.None? <==>
      !IsBlank(name) && forall i :: 0 <= i < |cats| ==> !SameIgnoringCase(cats[i].nombre, name)
  {
    TrimEmptyIffBlank(name);
    if Trim(name) == "" then Some(NameRequired)
    else if Find(cats, (c: Category) => ToLower(c.nombre) == ToLower(name)).Some? then Some(AlreadyExists)
    else None
  }

  /** handleEditCategory's checks in the product detail: a clash with the
      category being renamed (named exactly original) does not count. */
  function CheckRename(cats: seq<Category>, original: string, name: string): (r: Option<string>)
    ensures r == Some(NameRequired) <==> IsBlank(name)
    ensures r == Some(AlreadyExists) <==>
      !IsBlank(name) &&
      exists i :: 0 <= i < |cats| && SameIgnoringCase(cats[i].nombre, name) && cats[i].nombre != original
    ensures r.None? <==>
      !IsBlank(name) && forall i :: 0 <= i < |cats| ==>
        !SameIgnoringCase(cats[i].nombre, name) || cats[i].nombre == original
  {
    TrimEmptyIffBlank(name);
    if Trim(name) == "" then Some(NameRequired)
    else if Find(cats, (c: Category) => ToLower(c.nombre) == ToLower(name) && c.nombre != original).Some? then
      Some(AlreadyExists)
    else None
  }

  /** No two names differ only in case */
  predicate UniqueIgnoringCase(cats: seq<Category>) {
    forall i, j :: 0 <= i < j < |cats| ==> !SameIgnoringCase(cats[i].nombre, cats[j].nombre)
  }

  /** A name the client lets through is one the server accepts: a name
      equal to an existing one is equal to it ignoring case. */
  lemma ClientCheckImpliesServerAccepts(store: Store, name: string)
    requires CheckNew(store.categorias, name).None?
    ensures CategoriasRoute.CreateCategory(store, Some(name)).0.Created?
  {
  }

  /** The server alone lets case variants in; the client refuses them. */
  lemma CaseVariantRefusedByClient()
    ensures CheckNew(CategoriasRoute.TwoCategories.categorias, "oficina") == Some(AlreadyExists)
    ensures CategoriasRoute.CreateCategory(CategoriasRoute.TwoCategories, Some("oficina")).0.Created?
  {
    var cats := CategoriasRoute.TwoCategories.categorias;
    assert !IsJsSpace("oficina"[0]);
    assert ToLower(cats[1].nombre) == ToLower("oficina") by {
      assert ToLower("Oficina") == "oficina";
      assert ToLower("oficina") == "oficina";
    }
    assert SameIgnoringCase(cats[1].nombre, "oficina");
    CategoriasRoute.CaseVariantIsNew();
  }

  /** Adding through the client keeps names unique ignoring case. */
  lemma ClientAddKeepsUniqueIgnoringCase(store: Store, name: string)
    requires UniqueIgnoringCase(store.categorias)
    requires CheckNew(store.categorias, name).None?
    ensures UniqueIgnoringCase(CategoriasRoute.CreateCategory(store, Some(name)).1.categorias)
  {
    ClientCheckImpliesServerAccepts(store, name);
    var cats := CategoriasRoute.CreateCategory(store, Some(name)).1.categorias;
    forall i, j | 0 <= i < j < |cats| ensures !SameIgnoringCase(cats[i].nombre, cats[j].nombre) {
      assert cats[i] == store.categorias[i];
      if j < |store.categorias| {
        assert cats[j] == store.categorias[j];
      }
    }
  }

  /** Renaming a category to itself, or to a case variant of itself, is
      allowed as long as no other category has that name ignoring case. */
  lemma RenameToCaseVariantAllowed(cats: seq<Category>, original: string, name: string)
    requires !IsBlank(name) && SameIgnoringCase(name, original)
    requires forall i :: 0 <= i < |cats| && cats[i].nombre != original ==>
      !SameIgnoringCase(cats[i].nombre, original)
    ensures CheckRename(cats, original, name).None?
  {
  }

  /** The rename check is the new-name check with the renamed category
      left out. */
  lemma RenameIsCheckNewWithoutOriginal(cats: seq<Category>, original: string, name: string)
    ensures CheckRename(cats, original, name) == CheckNew(Without(cats, original), name)
  {
    var rest := Without(cats, original);
    if !IsBlank(name) {
      if CheckRename(cats, original, name).Some? {
        var i :| 0 <= i < |cats| && SameIgnoringCase(cats[i].nombre, name) && cats[i].nombre != original;
        assert cats[i] in rest;
        var k :| 0 <= k < |rest| && rest[k] == cats[i];
      }
    }
  }

  /** The categories not named exactly n */
  function Without(cats: seq<Category>, n: string): (r: seq<Category>)
    ensures forall c :: c in r <==> c in cats && c.nombre != n
  {
    if |cats| == 0 then []
    else
      var rest := Without(cats[1..], n);
      assert forall c :: c in cats <==> c == cats[0] || c in cats[1..];
      if cats[0].nombre == n then rest else [cats[0]] + rest
  }
}
