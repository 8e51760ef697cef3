/** The field validators (js/form/validator.js, and its earlier copy
    js/validator.js): pure decisions over the trimmed input texts, and the
    "missing-value" error marker that the first interaction with the field
    clears. */
module Validator {
  import opened JsSemantics
  import opened Json

  /** Which element, if any, a failed validation marks with "missing-value". */
  datatype Mark = NoMark | MarkInput | MarkOtherInput

  /** `{valid, value}` together with the element the validator marked. */
  datatype Verdict = Verdict(valid: bool, value: Value, mark: Mark)

  /** validateStandardField: a required field whose trimmed text is blank is
      invalid, has no value and gets marked; any other field is valid with its
      trimmed text (the empty string for a blank optional field). */
  function ValidateStandard(text: string, required: bool): (r: Verdict)
    ensures r.valid <==> !required || Trim(text) != []
    ensures !r.valid ==> r.value == Null && r.mark == MarkInput
    ensures r.valid ==> r.value == Str(Trim(text)) && r.mark == NoMark
  {
    if required && Trim(text) == [] then Verdict(false, Null, MarkInput)
    else Verdict(true, Str(Trim(text)), NoMark)
  }

  /** Trimming is idempotent, so validating a stored value again accepts it unchanged. */
  lemma ValidateStandardStable(text: string, required: bool)
    requires ValidateStandard(text, required).valid
    ensures ValidateStandard(Trim(text), required) == ValidateStandard(text, required)
  {
    TrimIdempotent(text);
  }

  /** The trimmed texts of the chosen badges, in order. */
  function TrimmedTexts(texts: seq<string>): (r: seq<Value>)
    ensures |r| == |texts|
    ensures forall i :: 0 <= i < |texts| ==> r[i] == Str(Trim(texts[i]))
  {
    seq(|texts|, i requires 0 <= i < |texts| => Str(Trim(texts[i])))
  }

  /** validateChoiceField over the texts of the badges in the choice
      container (None when there is no container). A required field needs at
      least one badge; a non-empty container gives the trimmed texts in
      order, otherwise the value is null. */
  function ValidateChoice(container: Option<seq<string>>, required: bool): (r: Verdict)
    ensures r.valid <==> !required || (container.Some? && container.value != [])
    ensures !r.valid ==> r.value == Null && r.mark == MarkInput
    ensures r.valid && container.Some? && container.value != [] ==>
              r.value == Arr(TrimmedTexts(container.value)) && r.mark == NoMark
    ensures r.valid && (container.None? || container.value == []) ==> r.value == Null && r.mark == NoMark
  {
    if required && (container.None? || |container.value| == 0) then Verdict(false, Null, MarkInput)
    else if container.Some? && |container.value| > 0 then Verdict(true, Arr(TrimmedTexts(container.value)), NoMark)
    else Verdict(true, Null, NoMark)
  }

  /** validateOtherField. Unless the trimmed input is the "other" keyword the
      field is a standard one. With "other" chosen the value is always null
      and the field is invalid exactly when it is required and the "other"
      input is blank, in which case that input is marked. With no "other"
      input in the page (`otherText` is None) reading its value throws. */
  function ValidateOther(text: string, otherText: Option<string>, required: bool, other: string): (r: Result<Verdict>)
    ensures Trim(text) != other ==> r == Ok(ValidateStandard(text, required))
    ensures Trim(text) == other && otherText.None? ==> r.Err?
    ensures Trim(text) == other && otherText.Some? ==>
              && r.Ok? && r.value.value == Null
              && (r.value.valid <==> !required || Trim(otherText.value) != [])
              && r.value.mark == (if r.value.valid then NoMark else MarkOtherInput)
  {
    if Trim(text) != other then Ok(ValidateStandard(text, required))
    else if otherText.None? then Err("TypeError: Cannot read properties of null (reading 'value')")
    else
      var value := Trim(otherText.value);
      if required && value == [] then Ok(Verdict(false, Null, MarkOtherInput))
      else Ok(Verdict(true, Null, NoMark))
  }

  /** The "missing-value" class of one input and the clearing listeners
      attached to it. Every invalidation adds the class and a fresh pair of
      click/input listeners; each listener removes the class and itself, so
      the first click or input runs all of them and leaves none. */
  class FieldMarker {
    /** Whether the element carries "missing-value". */
    var missingValue: bool
    /** How many clearError closures are still registered. */
    var pendingClears: nat

    ghost predicate Valid()
      reads this
    {
      missingValue <==> pendingClears > 0
    }

    constructor ()
      ensures Valid() && !missingValue && pendingClears == 0
    {
      missingValue := false;
      pendingClears := 0;
    }

    /** invalidateField */
    method Invalidate()
      requires Valid()
      modifies this
      ensures Valid() && missingValue && pendingClears == old(pendingClears) + 1
    {
      missingValue := true;
      pendingClears := pendingClears + 1;
    }

    /** A click or input on the element. */
    method Interact()
      requires Valid()
      modifies this
      ensures Valid() && !missingValue && pendingClears == 0
      ensures old(pendingClears) == 0 ==> missingValue == old(missingValue)
    {
      while pendingClears > 0
        invariant pendingClears <= old(pendingClears)
        invariant pendingClears < old(pendingClears) ==> !missingValue
        invariant pendingClears == old(pendingClears) ==> missingValue == old(missingValue)
      {
        missingValue := false;
        pendingClears := pendingClears - 1;
      }
    }
  }
}
