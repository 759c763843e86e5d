/** The dialog that asks how many units to add to or take from a product:
    the text field accepts only digits, and confirming checks the amount
    before handing a signed change to the page. */
module StockModal {
  import opened Wrappers
  import opened JsText

  /** The text typed so far and the error shown under it */
  datatype ModalState = ModalState(cantidad: string, error: Option<string>)

  /** handleConfirm either shows an error (the new state) or calls
      onConfirm with the signed change. */
  datatype Outcome = Rejected(state: ModalState) | Confirmed(delta: int)

  const Required := "La cantidad es obligatoria"
  const NotPositive := "La cantidad debe ser un número positivo"

  function TooMany(currentStock: int): string {
    "No puede restar más de " + IntToString(currentStock) + " unidades"
  }

  /** The texts the field can hold: empty or digits only */
  predicate Admissible(s: ModalState) {
    s.cantidad == "" || IsDigits(s.cantidad)
  }

  /** The effect that runs when isOpen changes: opening starts over with
      one unit and no error. */
  function OnOpenChange(s: ModalState, isOpen: bool): (r: ModalState)
    ensures isOpen ==> r.cantidad == "1" && r.error.None?
    ensures !isOpen ==> r == s
    ensures Admissible(s) ==> Admissible(r)
  {
    if isOpen then ModalState("1", None) else s
  }

  /** handleChange: an edit is taken (clearing the error) only when the new
      text is empty or matches ^\d+$; otherwise nothing changes. */
  function HandleChange(s: ModalState, value: string): (r: ModalState)
    ensures Admissible(s) ==> Admissible(r)
    ensures r.cantidad == value || r == s
    ensures r != s ==> r.error.None?
    ensures (value == "" || IsDigits(value)) ==> r == ModalState(value, None)
    ensures !(value == "" || IsDigits(value)) ==> r == s
  {
    if value == "" || IsDigits(value) then ModalState(value, None) else s
  }

  /** handleConfirm, with the stock shown and the direction of the dialog */
  function HandleConfirm(s: ModalState, currentStock: int, isIncrement: bool): (r: Outcome)
    ensures r.Rejected? ==> r.state.cantidad == s.cantidad && r.state.error.Some?
    ensures IsBlank(s.cantidad) ==> r == Rejected(s.(error := Some(Required)))
    ensures r.Confirmed? && isIncrement ==> r.delta > 0
    ensures r.Confirmed? && !isIncrement ==> r.delta < 0 && currentStock + r.delta >= 0
  {
    TrimEmptyIffBlank(s.cantidad);
    if Trim(s.cantidad) == "" then Rejected(s.(error := Some(Required)))
    else CheckAmount(s, ParseInt(s.cantidad), currentStock, isIncrement)
  }

  /** The checks after `Number.parseInt(cantidad, 10)`; None is NaN. */
  function CheckAmount(s: ModalState, parsed: Option<int>, currentStock: int, isIncrement: bool): (r: Outcome)
    ensures r.Rejected? ==> r.state.cantidad == s.cantidad && r.state.error.Some?
    ensures r.Confirmed? && isIncrement ==> r.delta > 0
    ensures r.Confirmed? && !isIncrement ==> r.delta < 0 && currentStock + r.delta >= 0
  {
    match parsed
    case None => Rejected(s.(error := Some(NotPositive)))
    case Some(n) =>
      if n <= 0 then Rejected(s.(error := Some(NotPositive)))
      else if !isIncrement && n > currentStock then Rejected(s.(error := Some(TooMany(currentStock))))
      else Confirmed(if isIncrement then n else -n)
  }

  /** For the texts the field can hold, confirming succeeds exactly when
      the number typed is positive and, for a decrease, at most the stock;
      the change is that number, signed by the direction. */
  lemma ConfirmOfDigits(s: ModalState, currentStock: int, isIncrement: bool)
    requires IsDigits(s.cantidad)
    ensures HandleConfirm(s, currentStock, isIncrement).Confirmed? <==>
      Value(s.cantidad) > 0 && (isIncrement || Value(s.cantidad) <= currentStock)
    ensures HandleConfirm(s, currentStock, isIncrement).Confirmed? ==>
      HandleConfirm(s, currentStock, isIncrement).delta
        == if isIncrement then Value(s.cantidad) as int else -(Value(s.cantidad) as int)
    ensures Value(s.cantidad) == 0 ==>
      HandleConfirm(s, currentStock, isIncrement) == Rejected(s.(error := Some(NotPositive)))
    ensures !isIncrement && Value(s.cantidad) > currentStock && Value(s.cantidad) > 0 ==>
      HandleConfirm(s, currentStock, isIncrement) == Rejected(s.(error := Some(TooMany(currentStock))))
  {
    DigitsParse(s.cantidad);
    ConfirmOfNumber(s, currentStock, isIncrement, Value(s.cantidad));
  }

  lemma DigitsParse(t: string)
    requires IsDigits(t)
    ensures !IsBlank(t) && ParseInt(t) == Some(Value(t))
  {
    ParseIntDigits(t);
    assert !IsJsSpace(t[0]);
  }

  lemma ConfirmOfNumber(s: ModalState, currentStock: int, isIncrement: bool, v: int)
    requires !IsBlank(s.cantidad) && ParseInt(s.cantidad) == Some(v)
    ensures var r := HandleConfirm(s, currentStock, isIncrement);
      && (r.Confirmed? <==> v > 0 && (isIncrement || v <= currentStock))
      && (r.Confirmed? ==> r.delta == if isIncrement then v else -v)
      && (v <= 0 ==> r == Rejected(s.(error := Some(NotPositive))))
      && (!isIncrement && v > currentStock && v > 0 ==>
            r == Rejected(s.(error := Some(TooMany(currentStock)))))
  {
    TrimEmptyIffBlank(s.cantidad);
  }

  /** An emptied field asks for a quantity. */
  lemma EmptyIsRequired(s: ModalState, currentStock: int, isIncrement: bool)
    requires s.cantidad == ""
    ensures HandleConfirm(s, currentStock, isIncrement) == Rejected(ModalState("", Some(Required)))
  {
  }

  /** "000" is digits, passes the filter, and is refused as not positive. */
  lemma ZerosAreNotPositive()
    ensures HandleChange(ModalState("1", None), "000") == ModalState("000", None)
    ensures HandleConfirm(ModalState("000", None), 5, true) == Rejected(ModalState("000", Some(NotPositive)))
  {
    var z := "000";
    assert IsDigits(z);
    assert z[..2] == "00" && "00"[..1] == "0";
    assert Value(z) == 0;
    ConfirmOfDigits(ModalState(z, None), 5, true);
  }

  /** A confirmed decrease of a non-negative stock leaves a non-negative
      stock, whatever was typed and however the field was reached. */
  lemma DecreaseNeverOverdraws(s: ModalState, currentStock: int)
    requires currentStock >= 0
    ensures var r := HandleConfirm(s, currentStock, false);
      r.Confirmed? ==> 0 <= currentStock + r.delta < currentStock
  {
  }
}
