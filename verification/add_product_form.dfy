/** The add-product dialog: its form state, the per-field error clearing,
    the inline new-category flow, and the validation that decides whether
    the form is handed to the page, which posts it to the API. */
module AddProductForm {
  import opened Wrappers
  import opened JsText
  import opened Types
  import CategoryRules
  import CategoriasRoute
  import ProductosRoute

  /** formData; a null or NaN category id is None */
  datatype FormData = FormData(name: string, quantity: int, description: string, categoriaId: Option<int>)

  /** The error shown under each validated field */
  datatype Errors = Errors(name: Option<string>, quantity: Option<string>, categoriaId: Option<string>)

  const NoErrors := Errors(None, None, None)

  datatype FormState = FormState(
    form: FormData,
    errors: Errors,
    addingCategory: bool,
    newCategory: string,
    categoryError: string)

  /** The state the dialog opens with: empty fields, quantity 0 and the
      first category preselected, if there is one */
  function Initial(categories: seq<Category>): (s: FormState)
    ensures s.form.categoriaId.Some? <==> |categories| > 0
    ensures |categories| > 0 ==> s.form.categoriaId.value == categories[0].id
  {
    FormState(
      FormData("", 0, "", if |categories| > 0 then Some(categories[0].id) else None),
      NoErrors, false, "", "")
  }

  /** `Number.parseInt(value) || 0`: NaN and 0 both give 0 */
  function QuantityOf(value: string): (r: int)
    ensures ParseInt(value).None? ==> r == 0
    ensures r != 0 ==> ParseInt(value) == Some(r)
  {
    ParseInt(value).GetOr(0)
  }

  /** A number typed as its decimal text is read back exactly. */
  lemma QuantityOfNumber(n: int)
    ensures QuantityOf(IntToString(n)) == n
  {
    ParseIntOfString(n);
  }

  /** Text that starts with no number gives 0; trailing letters are
      ignored. */
  lemma QuantityOfWords()
    ensures QuantityOf("abc") == 0
    ensures QuantityOf("12abc") == 12
  {
    QuantityOfLetters("abc");
    var d, t := "12", "abc";
    assert d + t == "12abc";
    assert IsDigits(d) && Value(d) == 12 by { assert d[..1] == "1" && "1"[..0] == ""; }
    QuantityOfDigitsThen(d, t);
  }

  lemma QuantityOfLetters(a: string)
    requires |a| > 0 && !IsJsSpace(a[0]) && !IsDigit(a[0]) && a[0] != '-' && a[0] != '+'
    ensures QuantityOf(a) == 0
  {
    DropLeadingNone(a, IsJsSpace);
  }

  /** parseInt reads the leading digits and ignores whatever follows the
      first non-digit. */
  lemma QuantityOfDigitsThen(d: string, t: string)
    requires IsDigits(d) && (|t| == 0 || !IsDigit(t[0]))
    ensures QuantityOf(d + t) == Value(d)
  {
    DigitPrefixThen(d, t);
    assert (d + t)[0] == d[0];
    ParseIntOfPrefix(d + t, d);
  }

  /** The text inputs of the form */
  datatype Input = NameInput | QuantityInput | DescriptionInput

  /** handleChange: the edited field takes the value (the quantity parsed)
      and that field's error, if shown, is cleared; nothing else moves. */
  function HandleChange(s: FormState, input: Input, value: string): (r: FormState)
    ensures input == NameInput ==> r.form == s.form.(name := value)
    ensures input == QuantityInput ==> r.form == s.form.(quantity := QuantityOf(value))
    ensures input == DescriptionInput ==> r.form == s.form.(description := value)
    ensures input == NameInput && Messages(s.errors) ==> r.errors == s.errors.(name := None)
    ensures input == QuantityInput && Messages(s.errors) ==> r.errors == s.errors.(quantity := None)
    ensures input == DescriptionInput ==> r.errors == s.errors
    ensures r.errors.categoriaId == s.errors.categoriaId && Messages(r.errors) == Messages(s.errors)
    ensures r.addingCategory == s.addingCategory && r.newCategory == s.newCategory
      && r.categoryError == s.categoryError
  {
    match input
    case NameInput =>
      s.(form := s.form.(name := value), errors := if Shown(s.errors.name) then s.errors.(name := None) else s.errors)
    case QuantityInput =>
      s.(form := s.form.(quantity := QuantityOf(value)),
         errors := if Shown(s.errors.quantity) then s.errors.(quantity := None) else s.errors)
    case DescriptionInput =>
      s.(form := s.form.(description := value))
  }

  /** `if (errors[name])`: an error message is shown when it is non-empty;
      the messages this form sets never are empty. */
  predicate Shown(e: Option<string>) {
    e.Some? && e.value != ""
  }

  /** No message any validation sets is empty. */
  predicate Messages(e: Errors) {
    (e.name.Some? ==> e.name.value != "")
    && (e.quantity.Some? ==> e.quantity.value != "")
    && (e.categoriaId.Some? ==> e.categoriaId.value != "")
  }

  /** handleCategoryChange: "nueva" opens the new-category input; any
      other value becomes the category id and clears its error. */
  function HandleCategoryChange(s: FormState, value: string): (r: FormState)
    ensures value == "nueva" ==> r == s.(addingCategory := true)
    ensures value != "nueva" ==> r.form == s.form.(categoriaId := ParseInt(value))
    ensures value != "nueva" && Messages(s.errors) ==> r.errors == s.errors.(categoriaId := None)
    ensures value != "nueva" ==>
      r.addingCategory == s.addingCategory && r.newCategory == s.newCategory && r.categoryError == s.categoryError
  {
    if value == "nueva" then s.(addingCategory := true)
    else
      s.(form := s.form.(categoriaId := ParseInt(value)),
         errors := if Shown(s.errors.categoriaId) then s.errors.(categoriaId := None) else s.errors)
  }

  /** handleAddCategory, with the reply of the page's POST (None when it
      failed). The name is sent only when it passes the shared check; a
      created category becomes the form's category and closes the input. */
  function HandleAddCategory(s: FormState, categories: seq<Category>, reply: Option<Category>): (r: (FormState, bool))
    ensures r.1 <==> CategoryRules.CheckNew(categories, s.newCategory).None?
    ensures !r.1 ==> r.0 == s.(categoryError := CategoryRules.CheckNew(categories, s.newCategory).value)
    ensures r.1 && reply.None? ==> r.0 == s
    ensures r.1 && reply.Some? ==>
      r.0 == s.(form := s.form.(categoriaId := Some(reply.value.id)), newCategory := "",
                addingCategory := false, categoryError := "")
  {
    match CategoryRules.CheckNew(categories, s.newCategory)
    case Some(e) => (s.(categoryError := e), false)
    case None =>
      match reply
      case None => (s, true)
      case Some(c) =>
        (s.(form := s.form.(categoriaId := Some(c.id)), newCategory := "", addingCategory := false,
            categoryError := ""), true)
  }

  /** Against the server: a name the form sends is created, and the form
      ends up on the new category's id. */
  lemma AddCategoryAdoptsCreated(s: FormState, store: Store)
    requires CategoryRules.CheckNew(store.categorias, s.newCategory).None?
    ensures var (resp, after) := CategoriasRoute.CreateCategory(store, Some(s.newCategory));
      resp.Created?
      && HandleAddCategory(s, store.categorias, Some(resp.body)).0.form.categoriaId == Some(store.nextCategoriaId)
      && Category(store.nextCategoriaId, s.newCategory) in after.categorias
  {
    CategoryRules.ClientCheckImpliesServerAccepts(store, s.newCategory);
  }

  // ---------------------------------------------------------------------
  // Validation and submission

  /** validateForm: the three checks are made independently */
  function ValidateForm(f: FormData): (e: Errors)
    ensures e.name.Some? <==> IsBlank(f.name)
    ensures e.quantity.Some? <==> f.quantity < 0
    ensures e.categoriaId.Some? <==> f.categoriaId.None? || f.categoriaId.value == 0
    ensures Messages(e)
  {
    TrimEmptyIffBlank(f.name);
    Errors(
      if Trim(f.name) == "" then Some(ProductosRoute.NameRequired) else None,
      if f.quantity < 0 then Some(ProductosRoute.QuantityNegative) else None,
      if f.categoriaId.None? || f.categoriaId.value == 0 then Some(ProductosRoute.CategoryRequired) else None)
  }

  /** handleSubmit: the errors are replaced by the fresh ones and the form
      is handed on only when there are none. */
  function HandleSubmit(s: FormState): (r: (FormState, Option<FormData>))
    ensures r.0 == s.(errors := ValidateForm(s.form))
    ensures r.1.Some? <==> ValidateForm(s.form) == NoErrors
    ensures r.1.Some? ==> r.1.value == s.form
  {
    var e := ValidateForm(s.form);
    (s.(errors := e), if e == NoErrors then Some(s.form) else None)
  }

  /** handleAddProduct's mapping from the form to the API's field names */
  function Payload(f: FormData): (req: ProductosRoute.CreateRequest)
    ensures req.nombre == Some(f.name) && req.descripcion == Some(f.description)
    ensures req.cantidad == f.quantity && req.categoriaId == f.categoriaId
  {
    ProductosRoute.CreateRequest(Some(f.name), f.quantity, Some(f.description), f.categoriaId)
  }

  /** The dialog and the API agree: the form is submitted exactly when the
      API's validation passes, and had a form been sent anyway the API would
      answer with the first of the dialog's messages. */
  lemma ClientMatchesServer(f: FormData)
    ensures HandleSubmit(FormState(f, NoErrors, false, "", "")).1.Some?
      <==> ProductosRoute.Validate(Payload(f)).None?
    ensures var e := ValidateForm(f);
      ProductosRoute.Validate(Payload(f)) ==
        if e.name.Some? then e.name else if e.quantity.Some? then e.quantity else e.categoriaId
  {
  }

  /** A fresh dialog over a non-empty category list complains only about
      the name (when the first category's id is not 0). */
  lemma InitialNeedsOnlyName(categories: seq<Category>)
    requires |categories| > 0 && categories[0].id != 0
    ensures ValidateForm(Initial(categories).form) == Errors(Some(ProductosRoute.NameRequired), None, None)
  {
  }
}
