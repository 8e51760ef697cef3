/** The tea form (js/form/tea_form.js): how each configured field becomes a
    widget, how the submitted form is validated and folded into a record and
    a list of option updates, and what submitting writes to local storage. */
module TeaForm {
  import opened JsSemantics
  import opened Objects
  import opened Json
  import opened Utils
  import opened Storage
  import opened Validator

  /** One field of the configuration. A missing `otherId`, `choiceId` or
      `storageKey` is the empty string (both are falsy); a missing `textarea`
      is 0. `labels` maps language codes to the label text. */
  datatype Field = Field(
    id: string,
    labels: map<string, string>,
    otherId: string,
    choiceId: string,
    textarea: nat,
    storageKey: string,
    required: bool)

  /** The interface texts of one language. */
  datatype UILabels = UILabels(inputPrefix: string, other: string, add: string, send: string)

  /** The widget buildField creates, with the texts it is given. */
  datatype Widget =
    | OneChoiceInput(id: string, labelText: string, placeholder: string, storageKey: string, otherId: string)
    | MultipleChoiceInput(id: string, labelText: string, placeholder: string, choiceId: string, storageKey: string)
    | TextArea(id: string, labelText: string, rows: nat)
    | TextInput(id: string, labelText: string, placeholder: string)

  /** `${inputPrefix} ${label.toLowerCase()}` */
  function Placeholder(inputPrefix: string, text: string): (r: string)
    ensures |r| == |inputPrefix| + 1 + |text|
    ensures r[..|inputPrefix|] == inputPrefix && r[|inputPrefix|] == ' '
    ensures forall i :: 0 <= i < |text| ==> r[|inputPrefix| + 1 + i] == ToLowerChar(text[i])
  {
    inputPrefix + " " + ToLowerCase(text)
  }

  /** `${label} :` */
  function LabelText(text: string): (r: string)
    ensures |r| == |text| + 2 && r[..|text|] == text && r[|text|..] == " :"
  {
    text + " :"
  }

  /** buildField: a field with an otherId becomes a single-choice input, else
      one with a choiceId a multiple-choice input, else one with a textarea
      size a text area, else a plain text input. A label missing for the
      language makes `label.toLowerCase()` throw. */
  function BuildField(f: Field, lang: string, ui: UILabels): (r: Result<Widget>)
    ensures r.Err? <==> lang !in f.labels
    ensures r.Ok? ==> r.value.id == f.id && r.value.labelText == LabelText(f.labels[lang])
    ensures r.Ok? && !r.value.TextArea? ==> r.value.placeholder == Placeholder(ui.inputPrefix, f.labels[lang])
    ensures r.Ok? ==> (r.value.OneChoiceInput? <==> f.otherId != [])
    ensures r.Ok? ==> (r.value.MultipleChoiceInput? <==> f.otherId == [] && f.choiceId != [])
    ensures r.Ok? ==> (r.value.TextArea? <==> f.otherId == [] && f.choiceId == [] && f.textarea != 0)
    ensures r.Ok? && r.value.TextArea? ==> r.value.rows == f.textarea
  {
    if lang !in f.labels then Err("TypeError: Cannot read properties of undefined (reading 'toLowerCase')")
    else
      var text := f.labels[lang];
      var placeholder := Placeholder(ui.inputPrefix, text);
      var labelText := LabelText(text);
      if f.otherId != [] then Ok(OneChoiceInput(f.id, labelText, placeholder, f.storageKey, f.otherId))
      else if f.choiceId != [] then Ok(MultipleChoiceInput(f.id, labelText, placeholder, f.choiceId, f.storageKey))
      else if f.textarea != 0 then Ok(TextArea(f.id, labelText, f.textarea))
      else Ok(TextInput(f.id, labelText, placeholder))
  }

  // ---------------------------------------------------------------------------
  // Collecting and validating

  /** What the page holds when the form is submitted: the text of every input
      by id, and the badge texts of every choice container by id. */
  datatype Page = Page(texts: map<string, string>, badges: map<string, seq<string>>)

  /** `{isValid, values, storageUpdates}`; values are (fieldname, value) pairs. */
  datatype Collected = Collected(isValid: bool, values: Entries<Value>, updates: seq<Update>)

  /** `field.label.en`, which is `undefined` (and so names the key
      "undefined" in the stored record) when the English label is missing. */
  function FieldName(f: Field): string {
    if "en" in f.labels then f.labels["en"] else "undefined"
  }

  function Find<T>(m: map<string, T>, id: string): Option<T> {
    if id in m then Some(m[id]) else None
  }

  /** The validator the collector runs on a field (None when the field has no
      input in the page): the same precedence as buildField, otherId first,
      then choiceId, then the standard check. */
  function Checked(f: Field, page: Page, other: string): (r: Option<Result<Verdict>>)
    ensures r.None? <==> f.id !in page.texts
    ensures r.Some? && r.value.Err? ==> f.otherId != []
  {
    if f.id !in page.texts then None
    else
      var text := page.texts[f.id];
      if f.otherId != [] then Some(ValidateOther(text, Find(page.texts, f.otherId), f.required, other))
      else if f.choiceId != [] then Some(Ok(ValidateChoice(Find(page.badges, f.choiceId), f.required)))
      else Some(Ok(ValidateStandard(text, f.required)))
  }

  /** The widget buildField creates and the validator the collector runs agree. */
  lemma WidgetMatchesValidator(f: Field, lang: string, ui: UILabels, page: Page)
    requires BuildField(f, lang, ui).Ok? && f.id in page.texts
    ensures var w := BuildField(f, lang, ui).value;
            var c := Checked(f, page, ui.other).value;
            && (w.OneChoiceInput? ==> c == ValidateOther(page.texts[f.id], Find(page.texts, w.otherId), f.required, ui.other))
            && (w.MultipleChoiceInput? ==> c == Ok(ValidateChoice(Find(page.badges, w.choiceId), f.required)))
            && (w.TextArea? || w.TextInput? ==> c == Ok(ValidateStandard(page.texts[f.id], f.required)))
  {
  }

  /** What the forEach body of collectAndValidateFormFields does with one
      field: skip it (no input), throw, record it as invalid after the
      validator has marked the element with id `marked`, or accept it with
      its (fieldname, value) entry and its storage update, if any. */
  datatype Outcome = Skipped | Thrown(error: string) | Rejected(marked: string) | Accepted(entry: (string, Value), update: seq<Update>)

  /** The outcome of one field: accepted fields are named by their English
      label, and carry an update exactly when they have a storage key and a
      value other than null; a rejected field has marked its "other" input
      when "other" was chosen, and its own input otherwise. */
  function OutcomeOf(f: Field, page: Page, other: string): (o: Outcome)
    ensures o.Skipped? <==> f.id !in page.texts
    ensures o.Thrown? ==> f.otherId != []
    ensures o.Rejected? ==>
              o.marked == if f.otherId != [] && Trim(page.texts[f.id]) == other then f.otherId else f.id
    ensures o.Accepted? ==> o.entry.0 == FieldName(f)
    ensures o.Accepted? ==>
              o.update == if f.storageKey != [] && o.entry.1 != Null then [Update(f.storageKey, o.entry.1)] else []
  {
    match Checked(f, page, other)
    case None => Skipped
    case Some(Err(e)) => Thrown(e)
    case Some(Ok(v)) =>
      if !v.valid then Rejected(if v.mark == MarkOtherInput then f.otherId else f.id)
      else Accepted((FieldName(f), v.value),
                    if f.storageKey != [] && v.value != Null then [Update(f.storageKey, v.value)] else [])
  }

  function Outcomes(fields: seq<Field>, page: Page, other: string): (os: seq<Outcome>)
    ensures |os| == |fields|
    ensures forall i :: 0 <= i < |fields| ==> os[i] == OutcomeOf(fields[i], page, other)
  {
    seq(|fields|, i requires 0 <= i < |fields| => OutcomeOf(fields[i], page, other))
  }

  /** One step of the forEach. */
  function CollectStep(acc: Collected, o: Outcome): Result<Collected> {
    match o
    case Skipped => Ok(acc)
    case Thrown(e) => Err(e)
    case Rejected(_) => Ok(acc.(isValid := false))
    case Accepted(_, _) => Ok(Collected(acc.isValid, acc.values + EntryPart(o), acc.updates + UpdatePart(o)))
  }

  /** The forEach over all outcomes, in order; the first throw stops it. */
  function Collect(os: seq<Outcome>): Result<Collected> {
    if os == [] then Ok(Collected(true, [], []))
    else
      match Collect(os[..|os| - 1])
      case Err(e) => Err(e)
      case Ok(acc) => CollectStep(acc, os[|os| - 1])
  }

  /** collectAndValidateFormFields over the fields in visiting order. */
  function CollectFields(fields: seq<Field>, page: Page, other: string): Result<Collected> {
    Collect(Outcomes(fields, page, other))
  }

  function EntryPart(o: Outcome): Entries<Value> {
    if o.Accepted? then [o.entry] else []
  }

  function UpdatePart(o: Outcome): seq<Update> {
    if o.Accepted? then o.update else []
  }

  /** The entries of the accepted outcomes, in order. */
  function AcceptedEntries(os: seq<Outcome>): Entries<Value> {
    if os == [] then [] else EntryPart(os[0]) + AcceptedEntries(os[1..])
  }

  /** The updates of the accepted outcomes, in order. */
  function AcceptedUpdates(os: seq<Outcome>): seq<Update> {
    if os == [] then [] else UpdatePart(os[0]) + AcceptedUpdates(os[1..])
  }

  lemma {:induction false} AcceptedEntriesSnoc(os: seq<Outcome>)
    requires os != []
    ensures AcceptedEntries(os) == AcceptedEntries(os[..|os| - 1]) + EntryPart(os[|os| - 1])
  {
    if |os| > 1 {
      var tail := os[1..];
      assert tail[..|tail| - 1] == os[..|os| - 1][1..];
      assert tail[|tail| - 1] == os[|os| - 1];
      AcceptedEntriesSnoc(tail);
      assert os[..|os| - 1][0] == os[0];
    } else {
      assert os[..|os| - 1] == [];
    }
  }

  lemma {:induction false} AcceptedUpdatesSnoc(os: seq<Outcome>)
    requires os != []
    ensures AcceptedUpdates(os) == AcceptedUpdates(os[..|os| - 1]) + UpdatePart(os[|os| - 1])
  {
    if |os| > 1 {
      var tail := os[1..];
      assert tail[..|tail| - 1] == os[..|os| - 1][1..];
      assert tail[|tail| - 1] == os[|os| - 1];
      AcceptedUpdatesSnoc(tail);
      assert os[..|os| - 1][0] == os[0];
    } else {
      assert os[..|os| - 1] == [];
    }
  }

  /** The collection throws exactly when some field throws; otherwise the
      form is valid exactly when no field is rejected, `values` holds the
      entries of the accepted fields in field order, and the updates are
      those of the accepted fields, in field order. */
  lemma {:induction false} CollectSpec(os: seq<Outcome>)
    ensures Collect(os).Err? <==> exists i :: 0 <= i < |os| && os[i].Thrown?
    ensures Collect(os).Ok? ==>
              && (Collect(os).value.isValid <==> forall i :: 0 <= i < |os| ==> !os[i].Rejected?)
              && Collect(os).value.values == AcceptedEntries(os)
              && Collect(os).value.updates == AcceptedUpdates(os)
  {
    if os != [] {
      var init := os[..|os| - 1];
      CollectSpec(init);
      AcceptedEntriesSnoc(os);
      AcceptedUpdatesSnoc(os);
      assert forall i :: 0 <= i < |init| ==> init[i] == os[i];
    }
  }

  lemma CollectSnoc(os: seq<Outcome>, n: nat)
    requires n < |os| && Collect(os[..n]).Ok?
    ensures Collect(os[..n + 1]) == CollectStep(Collect(os[..n]).value, os[n])
  {
    assert os[..n + 1][..n] == os[..n];
  }

  /** Once a prefix throws, the whole collection throws the same error. */
  lemma {:induction false} CollectThrown(os: seq<Outcome>, n: nat)
    requires n <= |os| && Collect(os[..n]).Err?
    ensures Collect(os) == Collect(os[..n])
    decreases |os| - n
  {
    if n < |os| {
      assert os[..n + 1][..n] == os[..n];
      CollectThrown(os, n + 1);
    } else {
      assert os[..n] == os;
    }
  }

  function MarkPart(o: Outcome): seq<string> {
    if o.Rejected? then [o.marked] else []
  }

  /** The ids of the elements invalidateField marks during the forEach, in
      order; the marks made before a throw stay. */
  function Invalidated(os: seq<Outcome>): seq<string> {
    if os == [] then []
    else
      var init := os[..|os| - 1];
      if Collect(init).Err? then Invalidated(init)
      else Invalidated(init) + MarkPart(os[|os| - 1])
  }

  /** Every marked element is the one some rejected field marked; without a
      throw, every rejected field's element is marked, and the form is valid
      exactly when nothing was marked. */
  lemma {:induction false} InvalidatedSpec(os: seq<Outcome>)
    ensures forall id :: id in Invalidated(os) ==> exists i :: 0 <= i < |os| && os[i] == Rejected(id)
    ensures Collect(os).Ok? ==> (Collect(os).value.isValid <==> Invalidated(os) == [])
    ensures Collect(os).Ok? ==> forall i :: 0 <= i < |os| && os[i].Rejected? ==> os[i].marked in Invalidated(os)
  {
    if os != [] {
      var init := os[..|os| - 1];
      var last := os[|os| - 1];
      InvalidatedSpec(init);
      assert forall i :: 0 <= i < |init| ==> init[i] == os[i];
      if Collect(init).Ok? {
        assert Invalidated(os) == Invalidated(init) + MarkPart(last);
        forall id | id in Invalidated(os)
          ensures exists i :: 0 <= i < |os| && os[i] == Rejected(id)
        {
          if id !in Invalidated(init) {
            assert os[|os| - 1] == Rejected(id);
          }
        }
      }
    }
  }

  /** Once a prefix throws, the later fields mark nothing. */
  lemma {:induction false} InvalidatedThrown(os: seq<Outcome>, n: nat)
    requires n <= |os| && Collect(os[..n]).Err?
    ensures Invalidated(os) == Invalidated(os[..n])
    decreases |os| - n
  {
    if n < |os| {
      assert os[..n + 1][..n] == os[..n];
      InvalidatedThrown(os, n + 1);
    } else {
      assert os[..n] == os;
    }
  }

  lemma InvalidatedSnoc(os: seq<Outcome>, n: nat)
    requires n < |os| && Collect(os[..n]).Ok?
    ensures Invalidated(os[..n + 1]) == Invalidated(os[..n]) + MarkPart(os[n])
  {
    assert os[..n + 1][..n] == os[..n];
  }

  /** Every update names a storage key and carries a value other than null. */
  lemma {:induction false} UpdatesWellFormed(fields: seq<Field>, page: Page, other: string)
    ensures forall u :: u in AcceptedUpdates(Outcomes(fields, page, other)) ==> u.key != [] && u.value != Null
  {
    if fields != [] {
      UpdatesWellFormed(fields[1..], page, other);
      assert Outcomes(fields, page, other)[1..] == Outcomes(fields[1..], page, other);
    }
  }

  // ---------------------------------------------------------------------------
  // The form

  class TeaForm {
    const lang: string
    /** `config.object.en`: the storage key of the records. */
    const objectKey: string
    /** `config.fields`: rows of fields keyed by name. */
    const rows: seq<Entries<Field>>
    const ui: UILabels

    constructor (lang: string, objectKey: string, rows: seq<Entries<Field>>, ui: UILabels)
      ensures this.lang == lang && this.objectKey == objectKey && this.rows == rows && this.ui == ui
    {
      this.lang := lang;
      this.objectKey := objectKey;
      this.rows := rows;
      this.ui := ui;
    }

    /** The fields in the order collectAndValidateFormFields visits them:
        `Object.values(Object.assign({}, ...rows))`. */
    function Fields(): seq<Field>
      reads this
    {
      ValuesOf(FieldMapOf(rows))
    }

    /** collectAndValidateFormFields, with the ids of the elements its
        validators mark with "missing-value", in marking order. */
    method CollectAndValidateFormFields(page: Page) returns (r: Result<Collected>, invalidated: seq<string>)
      ensures r == CollectFields(Fields(), page, ui.other)
      ensures invalidated == Invalidated(Outcomes(Fields(), page, ui.other))
    {
      var fieldMap := BuildFieldMapFromGroups(rows);
      var fields := ValuesOf(fieldMap);
      ghost var outcomes := Outcomes(fields, page, ui.other);
      var formValid := true;
      var values: Entries<Value> := [];
      var storageUpdates: seq<Update> := [];
      invalidated := [];
      for i := 0 to |fields|
        invariant Collect(outcomes[..i]) == Ok(Collected(formValid, values, storageUpdates))
        invariant invalidated == Invalidated(outcomes[..i])
      {
        var field := fields[i];
        CollectSnoc(outcomes, i);
        InvalidatedSnoc(outcomes, i);
        assert outcomes[i] == OutcomeOf(field, page, ui.other);
        var checked := Checked(field, page, ui.other);
        if checked.Some? {
          if checked.value.Err? {
            CollectThrown(outcomes, i + 1);
            InvalidatedThrown(outcomes, i + 1);
            return Err(checked.value.error), invalidated;
          }
          var result := checked.value.value;
          if !result.valid {
            var marked := if result.mark == MarkOtherInput then field.otherId else field.id;
            assert outcomes[i] == Rejected(marked);
            invalidated := invalidated + [marked];
            formValid := false;
          } else {
            var update := if field.storageKey != [] && result.value != Null then [Update(field.storageKey, result.value)] else [];
            assert outcomes[i] == Accepted((FieldName(field), result.value), update);
            ghost var before := storageUpdates;
            values := values + [(FieldName(field), result.value)];
            if field.storageKey != [] && result.value != Null {
              storageUpdates := storageUpdates + [Update(field.storageKey, result.value)];
            }
            assert storageUpdates == before + update;
          }
        } else {
          assert outcomes[i] == Skipped;
        }
      }
      assert outcomes[..|fields|] == outcomes;
      r := Ok(Collected(formValid, values, storageUpdates));
    }

    /** The submit button: an invalid form, or a validator that throws,
        stores nothing; a valid form stores the record built from `values`
        under the object key unless an equal record is stored, then merges
        the updates into the option lists. The validators mark the elements
        listed in `invalidated` whether or not anything is stored. */
    method Submit(store: LocalStore, page: Page) returns (stored: bool, invalidated: seq<string>)
      modifies store
      ensures var c := CollectFields(Fields(), page, ui.other);
              stored <==> c.Ok? && c.value.isValid
      ensures invalidated == Invalidated(Outcomes(Fields(), page, ui.other))
      ensures !stored ==> store.data == old(store.data)
      ensures stored ==>
                var c := CollectFields(Fields(), page, ui.other).value;
                store.data == ApplyUpdates(StoreIfNew(old(store.data), objectKey, Obj(AssignAll([], c.values))), c.updates)
    {
      var collected;
      collected, invalidated := CollectAndValidateFormFields(page);
      if collected.Err? || !collected.value.isValid {
        return false, invalidated;
      }
      var record := StructureDataToStore(collected.value.values);
      store.StoreDataIfNew(Obj(record), objectKey);
      store.UpdateLocalStorage(collected.value.updates);
      stored := true;
    }
  }
}
