/** The label of the category filter: all categories, the selected
    category's name, or a prompt when the selection names no category. */
module CategorySelector {
  import opened Wrappers
  import opened JsText
  import opened Types

  const AllLabel := "Todas las categorías"
  const PromptLabel := "Filtrar por categoría"

  /** getSelectedCategoryName: the selection is "todas" or a category id
      as text. */
  function SelectedCategoryName(categories: seq<Category>, selected: string): (r: string)
    ensures selected == "todas" ==> r == AllLabel
    ensures selected != "todas" && (forall i :: 0 <= i < |categories| ==> IntToString(categories[i].id) != selected)
      ==> r == PromptLabel
    ensures selected != "todas" ==>
      forall i :: FirstWithIdTextAt(categories, selected, i) ==> r == categories[i].nombre
  {
    if selected == "todas" then AllLabel
    else match FirstWithIdText(categories, selected)
      case Some(c) => c.nombre
      case None => PromptLabel
  }

  /** Position i holds the first category whose id reads as selected */
  predicate FirstWithIdTextAt(categories: seq<Category>, selected: string, i: int) {
    && 0 <= i < |categories|
    && IntToString(categories[i].id) == selected
    && forall j :: 0 <= j < i ==> IntToString(categories[j].id) != selected
  }

  /** `categories.find(c => c.id.toString() === selected)` */
  function FirstWithIdText(categories: seq<Category>, selected: string): (r: Option<Category>)
    ensures r.None? <==> forall i :: 0 <= i < |categories| ==> IntToString(categories[i].id) != selected
    ensures forall i :: FirstWithIdTextAt(categories, selected, i) ==> r == Some(categories[i])
  {
    if |categories| == 0 then None
    else if IntToString(categories[0].id) == selected then Some(categories[0])
    else
      var r := FirstWithIdText(categories[1..], selected);
      assert forall i :: 1 <= i < |categories| ==> categories[i] == categories[1..][i - 1];
      r
  }

  /** Selecting a category by its id shows its name, when ids are unique. */
  lemma SelectingShowsName(categories: seq<Category>, k: int)
    requires 0 <= k < |categories|
    requires forall i :: 0 <= i < |categories| && i != k ==> categories[i].id != categories[k].id
    ensures SelectedCategoryName(categories, IntToString(categories[k].id)) == categories[k].nombre
  {
    var sel := IntToString(categories[k].id);
    forall j | 0 <= j < k ensures IntToString(categories[j].id) != sel {
      IntToStringInjective(categories[j].id, categories[k].id);
    }
  }

  /** Different integers are spelled differently. */
  lemma IntToStringInjective(a: int, b: int)
    ensures IntToString(a) == IntToString(b) ==> a == b
  {
    ParseIntOfString(a);
    ParseIntOfString(b);
  }
}
