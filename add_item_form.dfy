/**
 * The "Add Item" sheet: its form state, the handlers that set it, and the
 * submit that sends a trimmed payload, resets the form and closes the sheet.
 */
module AddItemForm {
  import opened Wrappers
  import opened Text
  import opened Models
  import opened Schemas

  /** The object handed to `onSubmit`; an absent date is `undefined`. */
  datatype ItemPayload = ItemPayload(name: string, quantity: string, storeId: int, needByDate: Option<Date>)

  const InitialName: string := ""
  const InitialQuantity: string := "1"

  /** JavaScript truthiness of `number | null`: null and 0 are falsy. */
  predicate Truthy(id: Option<int>) {
    id.Some? && id.value != 0
  }

  /** `String.prototype.trim` */
  function JsTrim(s: string): string {
    Trim(s, EcmaScriptWhiteSpace)
  }

  /** The condition under which submit is refused, in terms of what the user typed and picked. */
  lemma SubmitRefusedMeaning(name: string, storeId: Option<int>)
    ensures (JsTrim(name) == [] || !Truthy(storeId))
      <==> AllSpace(name, EcmaScriptWhiteSpace) || storeId == None || storeId == Some(0)
  {
    TrimEmptyIffAllSpace(name, EcmaScriptWhiteSpace);
  }

  /** The request body the payload becomes: `JSON.stringify` drops an `undefined` date. */
  function PayloadBody(p: ItemPayload): (b: ItemCreateBody)
    ensures b.name == Value(p.name) && b.quantity == Value(p.quantity) && b.storeId == Value(p.storeId)
    ensures p.needByDate.None? <==> b.needByDate.Unset?
  {
    ItemCreateBody(Value(p.name), Value(p.quantity), Value(p.storeId),
                   if p.needByDate.Some? then Value(p.needByDate.value) else Unset)
  }

  /**
   * Every payload the form sends is accepted by the item schema, which keeps
   * the store id and the date and re-strips the two strings.
   */
  lemma PayloadValidates(p: ItemPayload)
    ensures ValidateItemCreate(PayloadBody(p)) ==
      Success(ItemCreate(Strip(p.name), Strip(p.quantity), p.storeId, p.needByDate))
  {
  }

  /**
   * The two trims use different white space: a name that is only U+0085
   * passes the form's guard, and the server stores it as the empty string.
   */
  lemma NextLineNameStoredEmpty()
    ensures JsTrim("\U{85}") == "\U{85}"
    ensures Strip("\U{85}") == ""
  {
    assert !IsSpace('\U{85}', EcmaScriptWhiteSpace);
    assert IsSpace('\U{85}', UnicodeWhiteSpace);
    assert TrimStart("\U{85}", UnicodeWhiteSpace) == "";
  }

  class AddItemModal {
    var name: string
    var quantity: string
    var selectedStoreId: Option<int>
    var needByDate: Option<Date>
    var showDatePicker: bool
    /** Every payload passed to `onSubmit`, oldest first. */
    var submitted: seq<ItemPayload>
    /** How many times `onClose` has been called. */
    var closeCount: nat

    /** Every payload sent had a non-blank, trimmed name, a trimmed quantity and a non-zero store id. */
    ghost predicate Valid()
      reads this
    {
      && |submitted| <= closeCount
      && forall i :: 0 <= i < |submitted| ==>
        && submitted[i].name != [] && JsTrim(submitted[i].name) == submitted[i].name
        && JsTrim(submitted[i].quantity) == submitted[i].quantity
        && submitted[i].storeId != 0
    }

    /** The form as the sheet first shows it. */
    predicate IsReset()
      reads this
    {
      name == InitialName && quantity == InitialQuantity && selectedStoreId == None && needByDate == None
    }

    constructor ()
      ensures Valid() && IsReset() && !showDatePicker
      ensures submitted == [] && closeCount == 0
    {
      name, quantity, selectedStoreId, needByDate := InitialName, InitialQuantity, None, None;
      showDatePicker := false;
      submitted, closeCount := [], 0;
    }

    /** The `disabled` prop of the "Add Item" button: a blank name, no store, or store 0. */
    function SubmitDisabled(): (r: bool)
      reads this
      ensures r <==> AllSpace(name, EcmaScriptWhiteSpace) || selectedStoreId == None || selectedStoreId == Some(0)
    {
      SubmitRefusedMeaning(name, selectedStoreId);
      JsTrim(name) == [] || !Truthy(selectedStoreId)
    }

    /** `onChangeText` of the name field. */
    method SetName(s: string)
      requires Valid()
      modifies this
      ensures Valid()
      ensures name == s
      ensures quantity == old(quantity) && selectedStoreId == old(selectedStoreId) && needByDate == old(needByDate)
      ensures showDatePicker == old(showDatePicker) && submitted == old(submitted) && closeCount == old(closeCount)
    {
      name := s;
    }

    /** `onChangeText` of the quantity field. */
    method SetQuantity(s: string)
      requires Valid()
      modifies this
      ensures Valid()
      ensures quantity == s
      ensures name == old(name) && selectedStoreId == old(selectedStoreId) && needByDate == old(needByDate)
      ensures showDatePicker == old(showDatePicker) && submitted == old(submitted) && closeCount == old(closeCount)
    {
      quantity := s;
    }

    /** Pressing a store chip. */
    method SelectStore(id: int)
      requires Valid()
      modifies this
      ensures Valid()
      ensures selectedStoreId == Some(id)
      ensures name == old(name) && quantity == old(quantity) && needByDate == old(needByDate)
      ensures showDatePicker == old(showDatePicker) && submitted == old(submitted) && closeCount == old(closeCount)
    {
      selectedStoreId := Some(id);
    }

    /** The date button shows the picker. */
    method OpenDatePicker()
      requires Valid()
      modifies this
      ensures Valid()
      ensures showDatePicker
      ensures name == old(name) && quantity == old(quantity) && selectedStoreId == old(selectedStoreId)
      ensures needByDate == old(needByDate) && submitted == old(submitted) && closeCount == old(closeCount)
    {
      showDatePicker := true;
    }

    /** "Clear date". */
    method ClearDate()
      requires Valid()
      modifies this
      ensures Valid()
      ensures needByDate == None
      ensures name == old(name) && quantity == old(quantity) && selectedStoreId == old(selectedStoreId)
      ensures showDatePicker == old(showDatePicker) && submitted == old(submitted) && closeCount == old(closeCount)
    {
      needByDate := None;
    }

    /**
     * The picker's `onChange`: the picker stays open only on iOS, and an event
     * without a date (a dismissal) keeps the date already chosen.
     */
    method HandleDateChange(selectedDate: Option<Date>, isIos: bool)
      requires Valid()
      modifies this
      ensures Valid()
      ensures showDatePicker == isIos
      ensures needByDate == (if selectedDate.Some? then selectedDate else old(needByDate))
      ensures name == old(name) && quantity == old(quantity) && selectedStoreId == old(selectedStoreId)
      ensures submitted == old(submitted) && closeCount == old(closeCount)
    {
      showDatePicker := isIos;
      if selectedDate.Some? {
        needByDate := selectedDate;
      }
    }

    /** "Cancel" or a tap outside the sheet: `onClose` alone; the form keeps what was typed. */
    method Cancel()
      requires Valid()
      modifies this
      ensures Valid()
      ensures closeCount == old(closeCount) + 1
      ensures name == old(name) && quantity == old(quantity) && selectedStoreId == old(selectedStoreId)
      ensures needByDate == old(needByDate) && showDatePicker == old(showDatePicker) && submitted == old(submitted)
    {
      closeCount := closeCount + 1;
    }

    /**
     * `handleSubmit`: refused exactly when the button is disabled; otherwise
     * one trimmed payload is sent, the form is reset and the sheet is closed.
     */
    method HandleSubmit()
      requires Valid()
      modifies this
      ensures Valid()
      ensures old(SubmitDisabled()) ==>
        && name == old(name) && quantity == old(quantity) && selectedStoreId == old(selectedStoreId)
        && needByDate == old(needByDate) && submitted == old(submitted) && closeCount == old(closeCount)
      ensures !old(SubmitDisabled()) ==>
        && submitted == old(submitted) + [ItemPayload(JsTrim(old(name)), JsTrim(old(quantity)), old(selectedStoreId).value, old(needByDate))]
        && IsReset() && closeCount == old(closeCount) + 1
      ensures showDatePicker == old(showDatePicker)
    {
      if JsTrim(name) == [] || !Truthy(selectedStoreId) {
        return;
      }
      var payload := ItemPayload(JsTrim(name), JsTrim(quantity), selectedStoreId.value, needByDate);
      TrimIdempotent(name, EcmaScriptWhiteSpace);
      TrimIdempotent(quantity, EcmaScriptWhiteSpace);
      submitted := submitted + [payload];
      name := InitialName;
      quantity := InitialQuantity;
      selectedStoreId := None;
      needByDate := None;
      closeCount := closeCount + 1;
    }
  }

  /** Every payload the sheet has sent becomes a valid item body whose name is not blank to the client. */
  lemma SubmittedPayloadsAccepted(m: AddItemModal, i: int)
    requires m.Valid() && 0 <= i < |m.submitted|
    ensures ValidateItemCreate(PayloadBody(m.submitted[i])).Success?
    ensures !AllSpace(m.submitted[i].name, EcmaScriptWhiteSpace) && m.submitted[i].storeId != 0
  {
    var p := m.submitted[i];
    PayloadValidates(p);
    TrimEmptyIffAllSpace(p.name, EcmaScriptWhiteSpace);
  }
}
