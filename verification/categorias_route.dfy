/** The category collection route: POST rejects blank names and names
    already present (compared exactly), then inserts with the next serial
    id; GET lists the categories ordered by name. */
module CategoriasRoute {
  import opened Wrappers
  import opened JsText
  import opened Types
  import opened Http
  import opened Sorting

  const NameRequired := "El nombre de la categoría es obligatorio"
  const AlreadyExists := "Ya existe una categoría con ese nombre"

  /** Some category is called exactly n */
  predicate HasName(cats: seq<Category>, n: string) {
    exists i :: 0 <= i < |cats| && cats[i].nombre == n
  }

  /** No two categories share a name */
  predicate UniqueNames(cats: seq<Category>) {
    forall i, j :: 0 <= i < j < |cats| ==> cats[i].nombre != cats[j].nombre
  }

  /** The serial column: ids distinct and below the next value of the
      sequence */
  predicate SerialIds(cats: seq<Category>, next: int) {
    && (forall i :: 0 <= i < |cats| ==> cats[i].id < next)
    && (forall i, j :: 0 <= i < j < |cats| ==> cats[i].id != cats[j].id)
  }

  /** `SELECT * FROM categorias WHERE nombre = $1` */
  function RowsNamed(cats: seq<Category>, n: string): (rows: seq<Category>)
    ensures forall c :: c in rows ==> c in cats && c.nombre == n
    ensures forall i :: 0 <= i < |cats| && cats[i].nombre == n ==> cats[i] in rows
  {
    if |cats| == 0 then []
    else
      var rest := RowsNamed(cats[1..], n);
      assert forall i :: 1 <= i < |cats| ==> cats[i] == cats[1..][i - 1];
      if cats[0].nombre == n then [cats[0]] + rest else rest
  }

  /** The POST handler; nombre is None when the body has no name. */
  function CreateCategory(store: Store, nombre: Option<string>): (res: (Response<Category>, Store))
    ensures res.0 == BadRequest(NameRequired) <==> nombre.None? || IsBlank(nombre.value)
    ensures res.0 == Conflict(AlreadyExists) <==>
      nombre.Some? && !IsBlank(nombre.value) && HasName(store.categorias, nombre.value)
    ensures res.0.Created? <==>
      nombre.Some? && !IsBlank(nombre.value) && !HasName(store.categorias, nombre.value)
    ensures !res.0.Created? ==> res.1 == store
    ensures res.0.Created? ==>
      && res.0.body.nombre == nombre.value
      && res.0.body.id == store.nextCategoriaId
      && res.1.categorias == store.categorias + [res.0.body]
      && res.1.nextCategoriaId > store.nextCategoriaId
      && res.1.productos == store.productos
  {
    TrimEmptyIffBlank(nombre.GetOr(""));
    if nombre.None? || Trim(nombre.value) == "" then (BadRequest(NameRequired), store)
    else if |RowsNamed(store.categorias, nombre.value)| > 0 then
      var c := RowsNamed(store.categorias, nombre.value)[0];
      assert c in store.categorias;
      (Conflict(AlreadyExists), store)
    else
      var c := Category(store.nextCategoriaId, nombre.value);
      (Created(c), store.(categorias := store.categorias + [c], nextCategoriaId := store.nextCategoriaId + 1))
  }

  /** A successful POST keeps names unique and ids serial. */
  lemma CreateKeepsUnique(store: Store, nombre: Option<string>)
    requires UniqueNames(store.categorias)
    requires SerialIds(store.categorias, store.nextCategoriaId)
    ensures var after := CreateCategory(store, nombre).1;
      UniqueNames(after.categorias) && SerialIds(after.categorias, after.nextCategoriaId)
  {
    var res := CreateCategory(store, nombre);
    if res.0.Created? {
      var cats := res.1.categorias;
      forall i, j | 0 <= i < j < |cats| ensures cats[i].nombre != cats[j].nombre {
        if j == |store.categorias| {
          assert cats[i] == store.categorias[i];
        }
      }
    }
  }

  /** The duplicate check compares exactly: a case variant of an existing
      name is a new category. */
  lemma CaseVariantIsNew()
    ensures CreateCategory(TwoCategories, Some("oficina")).0 == Created(Category(3, "oficina"))
  {
    assert !IsJsSpace("oficina"[0]);
    assert !HasName(TwoCategories.categorias, "oficina") by {
      assert "oficina"[0] != "Oficina"[0];
      assert "oficina"[0] != "Electrónica"[0];
    }
  }

  /** The name is not trimmed: with surrounding spaces it is a new
      category, stored as sent. */
  lemma SpacedNameIsNew()
    ensures CreateCategory(TwoCategories, Some(" Oficina ")).0 == Created(Category(3, " Oficina "))
  {
    assert !IsJsSpace(" Oficina "[1]);
    assert !HasName(TwoCategories.categorias, " Oficina ") by {
      assert |" Oficina "| != |"Oficina"|;
      assert " Oficina "[0] != "Electrónica"[0];
    }
  }

  /** The seeded categories Electrónica and Oficina */
  const TwoCategories := Store([Category(1, "Electrónica"), Category(2, "Oficina")], 3, [])

  // ---------------------------------------------------------------------
  // GET /api/categorias

  /** Three-way comparison of category names */
  function CompareNombre(a: Category, b: Category): int {
    if StrLess(b.nombre, a.nombre) then 1
    else if StrLess(a.nombre, b.nombre) then -1
    else 0
  }

  /** The name comparison is a total preorder: swapping the arguments
      flips the sign both ways, and "not after" is transitive. */
  lemma CompareNombreAntisymmetric()
    ensures Antisymmetric(CompareNombre)
    ensures forall a: Category, b: Category :: CompareNombre(a, b) < 0 ==> CompareNombre(b, a) > 0
    ensures forall a: Category, b: Category, c: Category ::
      CompareNombre(a, b) <= 0 && CompareNombre(b, c) <= 0 ==> CompareNombre(a, c) <= 0
  {
    forall a: Category, b: Category ensures CompareNombre(a, b) > 0 ==> CompareNombre(b, a) < 0 {
      StrLessAsymmetric(a.nombre, b.nombre);
    }
    forall a: Category, b: Category ensures CompareNombre(a, b) < 0 ==> CompareNombre(b, a) > 0 {
      StrLessAsymmetric(b.nombre, a.nombre);
    }
    forall a: Category, b: Category, c: Category
      ensures CompareNombre(a, b) <= 0 && CompareNombre(b, c) <= 0 ==> CompareNombre(a, c) <= 0
    {
      NotAfterTransitive(a.nombre, b.nombre, c.nombre);
    }
  }

  /** "Not after" on names is transitive. */
  lemma NotAfterTransitive(a: string, b: string, c: string)
    ensures !StrLess(b, a) && !StrLess(c, b) ==> !StrLess(c, a)
  {
    StrLessTotal(a, b);
    StrLessTotal(b, c);
    StrLessTransitive(c, a, b);
    StrLessTransitive(b, c, a);
  }

  /** `SELECT * FROM categorias ORDER BY nombre`: every category once, no
      name before a smaller one */
  function ListCategories(cats: seq<Category>): (r: seq<Category>)
    ensures multiset(r) == multiset(cats)
    ensures forall i :: 0 < i < |r| ==> !StrLess(r[i].nombre, r[i - 1].nombre)
    ensures forall i, j :: 0 <= i < j < |r| ==> !StrLess(r[j].nombre, r[i].nombre)
  {
    CompareNombreAntisymmetric();
    var r := Sort(cats, CompareNombre);
    assert forall i :: 0 < i < |r| ==> CompareNombre(r[i - 1], r[i]) <= 0;
    NotAfterEverywhere(r);
    r
  }

  /** Neighbours in name order make the whole sequence ordered by name. */
  lemma NotAfterEverywhere(r: seq<Category>)
    requires forall i :: 0 < i < |r| ==> !StrLess(r[i].nombre, r[i - 1].nombre)
    ensures forall i, j :: 0 <= i < j < |r| ==> !StrLess(r[j].nombre, r[i].nombre)
  {
    forall i, j | 0 <= i < j < |r| ensures !StrLess(r[j].nombre, r[i].nombre) {
      NotAfterChain(r, i, j);
    }
  }

  lemma {:induction false} NotAfterChain(r: seq<Category>, i: nat, j: nat)
    requires forall k :: 0 < k < |r| ==> !StrLess(r[k].nombre, r[k - 1].nombre)
    requires i <= j < |r|
    ensures !StrLess(r[j].nombre, r[i].nombre)
    decreases j - i
  {
    if i < j {
      NotAfterChain(r, i, j - 1);
      NotAfterTransitive(r[i].nombre, r[j - 1].nombre, r[j].nombre);
    } else {
      StrLessAsymmetric(r[i].nombre, r[i].nombre);
    }
  }

  /** With unique names the listing is strictly increasing by name. */
  lemma ListStrictlyIncreasing(cats: seq<Category>)
    requires UniqueNames(cats)
    ensures var r := ListCategories(cats);
      forall i :: 0 < i < |r| ==> StrLess(r[i - 1].nombre, r[i].nombre)
  {
    var r := ListCategories(cats);
    forall i | 0 < i < |r| ensures StrLess(r[i - 1].nombre, r[i].nombre) {
      assert r[i - 1] in multiset(cats) && r[i] in multiset(cats);
      var a :| 0 <= a < |cats| && cats[a] == r[i - 1];
      var b :| 0 <= b < |cats| && cats[b] == r[i];
      if r[i - 1].nombre == r[i].nombre {
        assert a == b;
        PermutationDistinct(cats, r, i - 1, i);
      }
      StrLessTotal(r[i - 1].nombre, r[i].nombre);
    }
  }

  /** Two positions of a permutation of a sequence of distinct elements
      hold different elements. */
  lemma PermutationDistinct(cats: seq<Category>, r: seq<Category>, x: int, y: int)
    requires UniqueNames(cats) && multiset(r) == multiset(cats)
    requires 0 <= x < y < |r|
    ensures r[x] != r[y]
  {
    RepeatedCount(r, x, y);
    UniqueCount(cats, r[x]);
  }

  lemma RepeatedCount(r: seq<Category>, x: int, y: int)
    requires 0 <= x < y < |r|
    ensures r[x] == r[y] ==> multiset(r)[r[x]] >= 2
  {
    assert r == r[..x] + [r[x]] + r[x + 1..y] + [r[y]] + r[y + 1..];
  }

  lemma {:induction false} UniqueCount(cats: seq<Category>, c: Category)
    requires UniqueNames(cats)
    ensures multiset(cats)[c] <= 1
  {
    if |cats| > 0 {
      var init := cats[..|cats| - 1];
      assert cats == init + [cats[|cats| - 1]];
      UniqueCount(init, c);
      if c == cats[|cats| - 1] {
        assert forall i :: 0 <= i < |init| ==> init[i] != c;
        assert c !in init;
      }
    }
  }
}
