# Tea lounge front end — a verified model of its core logic

This project models the core logic of the tea lounge web front end in Dafny:

- **The carousel position engine** (`js/visualisation/carousel.js`). It covers:
  - the loop/infinite conflict;
  - the clone frame of infinite mode;
  - `goToItem`'s redirect policy and `next`/`prev`;
  - re-homing after a transition on a clone;
  - the slide-indicator buttons and their active marker;
  - the arrow-hiding rule;
  - the mobile breakpoint and the two getters.
- **The localStorage helpers** (`js/utils/storage.js` and the earlier `js/storage.js`). The store is a map from key to the array that `JSON.parse` gives back. The model covers:
  - the order-preserving de-duplicating merge;
  - append-if-absent;
  - delete by index;
  - the record built from `{fieldname, value}` pairs.
- **The string helpers and the field map** (`js/utils/utils.js` and the earlier `js/utils.js`).
- **The suggestion and selection logic** of the form inputs (`js/form/field_behaviors.js` and the earlier `js/field_behaviors.js`). It covers:
  - the keyboard highlight index;
  - suggestion filtering;
  - the "other" input toggle;
  - the list of chosen values.
- **The field validators and the one-shot "missing-value" marker** (`js/form/validator.js` and the earlier `js/validator.js`).
- **The form** (`js/form/tea_form.js`). It covers:
  - the widget dispatch with its label and placeholder strings;
  - the fold of the per-field validations into `isValid`, `values` and `storageUpdates`;
  - the submit sequence.
- **The card layout** (`js/visualisation/cards.js` and `js/visualisation/card.js`). A stored record maps to header, body and footer sections, and each field's role maps to a tag and classes.

How JavaScript behaviour is modelled:

- **Remainder and slice.** JavaScript's truncating `%`, `slice` with negative indices, and `splice(i, 1)` are written out in `js_semantics.dfy`.
- **Trim and case.** `trim` uses the JavaScript white-space set. Case mapping is ASCII only.
- **Objects.** A JavaScript object is an ordered list of entries. Assigning to an existing key keeps its position, and a new key goes last.
- **JSON.** JSON values are a datatype, and `JSON.stringify` comparison becomes structural equality.
- **State.** State that the code updates in place lives in classes: `Carousel`, `LocalStore`, `ChoiceInput`, `FieldMarker`, `TeaForm`, `Cards` and `Card`. Event handlers are methods called one after another.

The earlier root-level copies (`js/field_behaviors.js`, `js/validator.js`, `js/storage.js`, `js/utils.js`) share most of their code with the files under `js/form/` and `js/utils/`. Where a function appears in both, the member below covers both copies. The copies do not export the same functions:

- `js/storage.js` has no `getDataFromLocalStorage` and no `deleteDataByIndex`, and its `storeDataIfNew` fetches the key from the configuration instead of taking it as a parameter.
- `js/utils.js` has no `getBasePath` and no `buildFieldMapFromGroups`, and its `getConfigValue` differs.

The missing exports are what breaks the card view (see Findings).

## Model

| member | source | states |
|---|---|---|
| JsSemantics.JsRem | js/visualisation/carousel.js:97 | `a % b` is what is left of `a` after taking away `b` times the quotient truncated toward zero. It keeps the sign of `a` and its magnitude is below `|b|`, which together fix its value. It agrees with the mathematical remainder for a non-negative `a` and a positive `b` |
| JsSemantics.SliceFrom | js/visualisation/carousel.js:16 | `slice(start)` drops the first `start` elements; a negative start counts from the end and is clamped at 0 |
| JsSemantics.RemoveAt | js/utils/storage.js:69 | `splice(index, 1)` removes exactly the element at `index`, keeps the others in order, and removes that element's value once from the multiset |
| JsSemantics.Trim | js/form/validator.js:39 | the trimmed text has no white space at either end, is empty exactly when the text is all white space, and is the text with only white space cut from both ends |
| JsSemantics.TrimIdempotent | js/form/validator.js:44 | trimming a trimmed text changes nothing |
| JsSemantics.ToLowerCase | js/form/tea_form.js:60 | `toLowerCase` maps each upper-case letter to lower case and leaves every other character as it is |
| Objects.Assign | js/utils/storage.js:39 | `data[k] = v` keeps the keys unique, keeps the position of an existing key and appends a new one, makes `k` read `v`, and leaves every other key as it was |
| Objects.AssignAllLookup | js/utils/storage.js:39 | after assigning all pairs in order, a key reads the value of its last pair, or its old value when no pair names it |
| Objects.AssignAllKeys | js/utils/storage.js:39 | after assigning all pairs, the keys are the old keys followed by the new ones; a key is present exactly when it was present or some pair names it |
| Utils.Split | js/utils/utils.js:35 | `split(sep)` gives at least one part, and no part contains the separator |
| Utils.SplitFirst | js/utils/utils.js:46-47 | a text without the separator splits into itself alone; with it, the split is the text before the first separator followed by the split of the rest (at least two parts) |
| Utils.JoinSplit | js/utils/utils.js:48 | joining the `c`-split parts with `d` replaces every `c` by `d` |
| Utils.SnakeToTitleCaseSpec | js/utils/utils.js:34-36 | the result has the same length; each `_` becomes a space, a character at the start of the text or after `_` is upper-cased, and every other character is kept (same code in js/utils.js:42-44) |
| Utils.ToLineBreakSpec | js/utils/utils.js:45-49 | a text without `_` is returned unchanged; otherwise the first `_` becomes a line break, every later `_` becomes a space, and all else is kept (same code in js/utils.js:53-57) |
| Utils.ToLineBreakAtFirst | js/utils/utils.js:46-48 | with the first `_` at position k, the result is the text before k, a line break, then the rest with `_` replaced by spaces |
| Utils.Capitalize | js/utils/utils.js:69-71 | the first character is upper-cased and the rest is kept; the empty text gives "UNDEFINED" (same code in js/utils.js:66-68) |
| Utils.CapitalizeIdempotent | js/utils/utils.js:69-71 | capitalising twice is the same as capitalising once |
| Utils.RequiredParam | js/utils/utils.js:58-60 | it always fails, and the message is exactly `l'Argument "`, the name, then `" est requis` (same code in js/utils.js:77-79) |
| Utils.GetBasePath | js/utils/utils.js:22-25 | the result ends with `/` and starts with the path; it is the path itself when the path already ends with `/`, otherwise one character longer |
| Utils.FieldMapOf | js/utils/utils.js:73-81 | the merged field map has unique keys |
| Utils.FieldMapOfLookup | js/utils/utils.js:73-81 | a key of the merged map reads its value in the last group that has it, and the merged map has exactly the keys of all groups |
| Utils.BuildFieldMapFromGroups | js/utils/utils.js:73-81 | the nested loops build exactly the merged field map |
| Storage.Dedup | js/utils/storage.js:25 | `[...new Set(xs)]` has no duplicates and the same members as `xs` |
| Storage.DedupPrefix | js/utils/storage.js:25 | merging keeps the de-duplicated existing array as a prefix, in its order |
| Storage.DedupOfDistinct | js/utils/storage.js:25 | an array without duplicates is kept as it is |
| Storage.DedupAbsorbs | js/utils/storage.js:25 | merging values that are already present changes nothing |
| Storage.DedupConcat | js/utils/storage.js:25 | de-duplicating before appending more values gives the same result as de-duplicating once at the end |
| Storage.MergedAgain | js/utils/storage.js:22-26 | two merges in a row under one key equal one merge of both value lists |
| Storage.MergeIdempotent | js/utils/storage.js:24-25 | merging the same value twice is the same as merging it once |
| Storage.ApplyUpdatesUntouched | js/utils/storage.js:22-27 | a key that no update names keeps its presence and its array |
| Storage.ApplyUpdatesMerged | js/utils/storage.js:22-27 | a key that some update names holds the first-occurrence de-duplication of its old array followed by every value the updates give it, in order, with a scalar value counted as a one-element list |
| Storage.StoreIfNewSpec | js/utils/storage.js:52-59 | after storeDataIfNew the item is stored under the key; the array grows by at most one and keeps its old elements as a prefix; other keys are untouched; a repeated call is a no-op (same logic in js/storage.js:20-32) |
| Storage.LocalStore.GetDataFromLocalStorage | js/utils/storage.js:8-12 | a missing key reads as the empty array, a present key as its array |
| Storage.LocalStore.UpdateLocalStorage | js/utils/storage.js:21-28 | the loop leaves the store equal to the updates applied in order (same code in js/storage.js:3-10) |
| Storage.LocalStore.StoreDataIfNew | js/utils/storage.js:52-59 | the new store is the old one with the item appended under the key unless an equal item is there |
| Storage.LocalStore.DeleteDataByIndex | js/utils/storage.js:66-71 | an index outside the array leaves the store unchanged; otherwise exactly that element is removed from the key's array |
| Storage.StructureDataToStore | js/utils/storage.js:37-41 | the loop builds the record of all `fieldname = value` assignments in order (same code in js/storage.js:12-18) |
| Storage.StructureDataSpec | js/utils/storage.js:37-41 | the record lists each field name once, has no other names, and maps each name to the value given last for it |
| FieldBehaviors.NextIndex | js/form/field_behaviors.js:148 | ArrowDown from -1 or any item lands on an item: -1 goes to item 0, the last item wraps to 0, any other item goes to the next one (same code in js/field_behaviors.js:51) |
| FieldBehaviors.PrevIndex | js/form/field_behaviors.js:153 | ArrowUp from -1 or any item lands on an item: item 0 wraps to the last, any other item goes to the previous one, and -1 goes to item n-2 rather than the last (0 with one item) (same code in js/field_behaviors.js:58) |
| FieldBehaviors.NextPrevInverse | js/form/field_behaviors.js:146-155 | on a highlighted item, ArrowDown then ArrowUp, and ArrowUp then ArrowDown, come back to it |
| FieldBehaviors.Without | js/form/field_behaviors.js:176 | the filtered options are exactly the options not in the excluded list, and there are no more of them |
| FieldBehaviors.WithoutAppend | js/form/field_behaviors.js:176 | filtering keeps the original order: filtering a concatenation concatenates the filtered parts |
| FieldBehaviors.WithoutNothing | js/form/field_behaviors.js:176 | with nothing excluded every option is shown, in order |
| FieldBehaviors.WithoutIdempotent | js/form/field_behaviors.js:176 | filtering the suggestions a second time against the same list changes nothing |
| FieldBehaviors.NoneExcluded | js/form/field_behaviors.js:176 | options that are all outside the excluded list are kept as they are |
| FieldBehaviors.Matching | js/form/field_behaviors.js:86 | the matches are exactly the options that start with the prefix and are not excluded |
| FieldBehaviors.MatchingAppend | js/form/field_behaviors.js:86 | prefix filtering keeps the original order |
| FieldBehaviors.Suggested | js/form/field_behaviors.js:82-87 | a blank input suggests every option not yet chosen; otherwise the suggestions are the options not yet chosen that start with the capitalised trimmed input (same code in js/field_behaviors.js:106-113) |
| FieldBehaviors.SuggestedAppend | js/form/field_behaviors.js:82-87 | the suggestions keep the options' order |
| FieldBehaviors.SuggestedNotSelected | js/form/field_behaviors.js:85-87 | the second filter in populateSuggestions removes nothing more from the autocomplete suggestions |
| FieldBehaviors.AddChoice | js/form/field_behaviors.js:121-123 | the chosen list keeps its elements as a prefix. It grows by one exactly when the trimmed input is non-empty and not literally in the list, and what it adds is the capitalised trimmed input (same code in js/field_behaviors.js:147-149) |
| FieldBehaviors.AddChoiceCapitalisedIdempotent | js/form/field_behaviors.js:122-123 | adding an input whose trimmed form is already capitalised a second time changes nothing |
| FieldBehaviors.AddChoiceTwiceDuplicates | js/form/field_behaviors.js:122-123 | an input that capitalisation changes (such as "green") can be added twice: the check compares the uncapitalised text with capitalised entries |
| FieldBehaviors.ChoiceInput.OneChoice | js/form/field_behaviors.js:16-31 | a single-choice input starts with an empty text, no suggestions, nothing highlighted, the "other" input hidden and nothing chosen |
| FieldBehaviors.ChoiceInput.MultipleChoice | js/form/field_behaviors.js:45-57 | a multiple-choice input starts with an empty text, no suggestions, nothing highlighted and an empty chosen list |
| FieldBehaviors.ChoiceInput.PopulateSuggestions | js/form/field_behaviors.js:175-186 | the loop shows exactly the options not in the excluded list, in order, with nothing highlighted, and changes nothing else (same code in js/field_behaviors.js:118-129) |
| FieldBehaviors.ChoiceInput.OpenDropdown | js/form/field_behaviors.js:67-69 | a click on a single-choice input with options shows `other` followed by all the options; without options there is no handler and nothing changes (js/form/field_behaviors.js:21-26) |
| FieldBehaviors.ChoiceInput.TypeText | js/form/field_behaviors.js:80-89 | typing shows the suggestions for the typed text and the current choices |
| FieldBehaviors.ChoiceInput.FinalizeSelection | js/form/field_behaviors.js:227-233 | the input takes the chosen text, the suggestions are emptied and the index reset to -1; a single-choice input shows its "other" input exactly when the choice is `other` (same code in js/field_behaviors.js:88-96) |
| FieldBehaviors.ChoiceInput.ClickSuggestion | js/form/field_behaviors.js:209-213 | clicking a suggestion finalizes the selection with its text |
| FieldBehaviors.ChoiceInput.KeyDown | js/form/field_behaviors.js:142-164 | with no suggestions, or another key, nothing changes. ArrowDown and ArrowUp move the index as NextIndex and PrevIndex say. Enter finalizes the highlighted suggestion when the index is at least 0, and throws when the index is past the list. Escape resets the index to -1 (same code in js/field_behaviors.js:44-72) |
| FieldBehaviors.ChoiceInput.BlurElapsed | js/form/field_behaviors.js:195-197 | once the blur delay has passed the suggestions are emptied and nothing else changes |
| FieldBehaviors.ChoiceInput.Add | js/form/field_behaviors.js:119-129 | the chosen list becomes AddChoice of the old list and the input text; the input and the suggestions are always cleared (same code in js/field_behaviors.js:145-155) |
| FieldBehaviors.ChoiceInput.RemoveChoice | js/form/field_behaviors.js:248-250 | the close button of badge i removes exactly that choice and keeps the others in order (same code in js/field_behaviors.js:136-139) |
| Validator.ValidateStandard | js/form/validator.js:38-45 | the field is valid exactly when it is optional or its trimmed text is non-empty. An invalid field has value null and marks the input; a valid field has the trimmed text as its value, which is "" for a blank optional field (same code in js/validator.js:16-23) |
| Validator.ValidateStandardStable | js/form/validator.js:44 | validating the stored trimmed value again gives the same verdict |
| Validator.ValidateChoice | js/form/validator.js:57-69 | a required field with no container or no badge is invalid, has value null and marks the input. Otherwise the field is valid, with the trimmed badge texts when there are badges and null when there are none (same code in js/validator.js:25-37) |
| Validator.ValidateOther | js/form/validator.js:82-92 | unless the trimmed input is `other`, the verdict is the standard one. With `other` chosen, the value is null and the field is invalid exactly when it is required and the "other" input is blank, in which case that input is marked. With no "other" input the read throws (same code in js/validator.js:39-49) |
| Validator.FieldMarker.Invalidate | js/form/validator.js:24-27 | invalidating adds the class and one more pair of clearing listeners (same code in js/validator.js:11-14) |
| Validator.FieldMarker.Interact | js/form/validator.js:8-16 | the first click or input runs every pending clear, so the class is gone and no listener is left; with none pending nothing changes (same code in js/validator.js:1-9) |
| TeaForm.Placeholder | js/form/tea_form.js:60 | the placeholder is the input prefix, a space, then the label in lower case |
| TeaForm.BuildField | js/form/tea_form.js:58-66 | a field without a label in the page's language throws. Otherwise the widget is the one-choice input when there is an `otherId`, else the multiple-choice input when there is a `choiceId`, else a text area of the given rows when `textarea` is set, else a text input. Each carries the label text, and each but the text area carries the placeholder |
| TeaForm.Checked | js/form/tea_form.js:100-105 | a field with no input in the page is skipped, and only a field with an `otherId` can throw |
| TeaForm.WidgetMatchesValidator | js/form/tea_form.js:103-105 | the validator chosen for a field follows the same precedence as its widget |
| TeaForm.OutcomeOf | js/form/tea_form.js:100-110 | a field is skipped exactly when it has no input. A rejected field has marked its "other" input when "other" was chosen, and its own input otherwise (js/form/validator.js:40, 59, 86). An accepted field is named by its English label and carries its value. It gives a storage update exactly when it has a storage key and a non-null value |
| TeaForm.CollectSpec | js/form/tea_form.js:99-113 | collecting fails exactly when some validator throws. Otherwise the form is valid exactly when no field is rejected; `values` lists the accepted fields in order and `storageUpdates` their updates in order |
| TeaForm.CollectThrown | js/form/tea_form.js:103 | once a validator has thrown, the later fields do not change the result |
| TeaForm.UpdatesWellFormed | js/form/tea_form.js:109 | every storage update has a non-empty key and a non-null value |
| TeaForm.InvalidatedSpec | js/form/tea_form.js:99-106 | every element marked "missing-value" during collection belongs to a rejected field. When no validator throws, every rejected field's element is marked, and the form is valid exactly when nothing was marked |
| TeaForm.InvalidatedThrown | js/form/tea_form.js:103 | after a validator throws, later fields mark nothing, and the marks made before the throw stay |
| TeaForm.TeaForm.CollectAndValidateFormFields | js/form/tea_form.js:94-114 | the loop over the merged field map returns exactly the collected result, and the elements it marks are exactly the invalidated ones, in order |
| TeaForm.TeaForm.Submit | js/form/tea_form.js:75-85 | an invalid form, or a throwing validator, stores nothing. A valid form stores the record of its values under the object key unless an equal record is stored, then merges the storage updates. Either way the elements the validators marked are exactly the invalidated ones |
| CardLayout.TextOf | js/visualisation/cards.js:81 | a string renders as itself, null as the empty text, and a one-string array as that string |
| CardLayout.ElementForField | js/visualisation/cards.js:67-83 | a title gives an h5 "card-title", a subtitle an h6 "card-subtitle text-muted", and any other role a p "card-text". The text is the rendered value (same code in js/visualisation/card.js:31-47) |
| CardLayout.Section | js/visualisation/cards.js:50-59 | a section has at most one element per record key |
| CardLayout.SectionSize | js/visualisation/cards.js:52-57 | a section has exactly one element per key whose field has that card position |
| CardLayout.SectionAppend | js/visualisation/cards.js:52-57 | section elements follow the record's key order |
| CardLayout.SectionsPartition | js/visualisation/cards.js:33-37 | the three sections together hold one element per key that maps to a field placed in header, body or footer |
| CardLayout.LookupsAgreeOnLowerCaseKeys | js/visualisation/cards.js:53 | on lower-case keys the lower-cased lookup and the exact lookup of js/visualisation/card.js:23 build the same sections |
| CardLayout.AttachedOf | js/visualisation/cards.js:38 | only non-empty sections are attached, and each attached section is one of the built ones |
| CardLayout.ElementCountAttached | js/visualisation/cards.js:38 | dropping empty sections loses no element |
| CardLayout.AttachedOrdered | js/visualisation/cards.js:38 | attaching keeps the order of the sections |
| CardLayout.CardSectionsSpec | js/visualisation/cards.js:33-38 | a card holds one element per placed key, its sections come in the order header, body, footer, and none is empty |
| CardLayout.BuildSection | js/visualisation/cards.js:50-59 | the `for…in` loop builds exactly the section (same loop in js/visualisation/card.js:20-29 with exact lookup) |
| CardLayout.BuildCardSections | js/visualisation/cards.js:33-38 | the loop over the three sections builds exactly the card |
| CardLayout.NewCards | js/visualisation/cards.js:20-30 | building the cards throws exactly when the `utils` namespace lacks `buildFieldMapFromGroups` or the `storage` namespace lacks `getDataFromLocalStorage`; otherwise there is one card per stored record |
| CardLayout.CardsWithRootModulesThrow | js/visualisation/cards.js:2-3 | with the root-level modules it imports, building the cards always throws |
| CardLayout.CardsWithUtilsModulesBuild | js/visualisation/cards.js:17-42 | with the modules under js/utils/ the cards are built, one per stored record, each holding one element per placed key |
| CardLayout.Cards.constructor | js/visualisation/cards.js:17-23 | there is one card per stored record, in stored order, built with the merged field map and lower-cased lookup, as the js/utils/ modules give them |
| CardLayout.Card.Build | js/visualisation/card.js:9-18 | the card of one record is built with exact lookup |
| Carousel.Create | js/visualisation/carousel.js:4-6 | construction fails exactly when loop and infinite mode are both on, before any state exists; otherwise the carousel is built |
| Carousel.Carousel.constructor | js/visualisation/carousel.js:4-41 | the constructor builds the track, with clones in infinite mode. It registers the arrow hider when `loop === false` and the indicator when asked, fires every callback once, and applies the breakpoint. In infinite mode, with at least `offset` real slides, it opens on the first real slide |
| Carousel.Carousel.OpenOnFirstRealSlide | js/visualisation/carousel.js:20 | the constructor's `goToItem(offset)` settles on the redirected offset, which is `offset` itself when there are at least `offset` real slides; nothing else changes |
| Carousel.InfiniteSlidesShape | js/visualisation/carousel.js:13-19 | with at least `offset` slides, the track is the last `offset` slides, all slides, then the first `offset` slides, of length N + 2·offset |
| Carousel.InfiniteSlidesClones | js/visualisation/carousel.js:15-19 | every slide of the track equals the slide N places later, so a jump by N shows the same picture |
| Carousel.InfiniteSlidesShort | js/visualisation/carousel.js:16 | with fewer slides than `offset` the leading slice is shorter, so the real count falls below N |
| Carousel.RedirectKeeps | js/visualisation/carousel.js:117-121 | a non-negative target is kept exactly when it is 0, or it is at most the length and either does not move forward or a slide follows the visible ones |
| Carousel.RedirectBounds | js/visualisation/carousel.js:120-121 | when the visible count fits the track, the settled index stays within [0, length] |
| Carousel.RedirectEndNotCaught | js/visualisation/carousel.js:117 | an index equal to the length is kept while a slide follows the visible ones, while one more is sent to 0 |
| Carousel.NextWrapsAtLastPage | js/visualisation/carousel.js:108-110 | `next` with no slide after the visible ones goes to 0 |
| Carousel.NextAdvances | js/visualisation/carousel.js:108-110 | `next` moves by one step while a slide follows the visible ones and the step stays on the track |
| Carousel.PrevFromFirstSlide | js/visualisation/carousel.js:112-114 | `prev` from slide 0 goes to length minus visible count |
| Carousel.ResetTargetInWindow | js/visualisation/carousel.js:133-138 | the reset asks for no move exactly when the index is on a real slide |
| Carousel.ResetLandsInWindow | js/visualisation/carousel.js:131-139 | from within one real count of the real slides the reset lands on a real slide, unredirected |
| Carousel.InfiniteStartsAtOffset | js/visualisation/carousel.js:14-20 | `goToItem(offset)` from 0 on the infinite track is not redirected, so the carousel opens on the first real slide, given at least `offset` real slides |
| Carousel.NextSettlesOnRealSlide | js/visualisation/carousel.js:108-110 | on the infinite track `next` from a real slide is not redirected. Once `resetInfinite` has run, the index is on a real slide showing the same picture: the target, or one real count before it |
| Carousel.PrevSettlesOnRealSlide | js/visualisation/carousel.js:112-114 | on the infinite track `prev` from a real slide is not redirected. Once `resetInfinite` has run, the index is on a real slide showing the same picture: the target, or one real count after it |
| Carousel.IndicatorTargetsSpec | js/visualisation/carousel.js:87-92 | button k goes to k·step + offset, and its start is at most the last valid start |
| Carousel.IndicatorTargetsComplete | js/visualisation/carousel.js:82-87 | the start after the last button is past the last valid start, so no button is missing |
| Carousel.ActiveBucketInWindow | js/visualisation/carousel.js:96-98 | on a real slide the marked button is the position among the real slides divided by the step |
| Carousel.IndicatorClickActivates | js/visualisation/carousel.js:87-103 | going to the target of button k marks button k |
| Carousel.ExactlyOneActive | js/visualisation/carousel.js:99-103 | marking a button that exists leaves exactly that button active |
| Carousel.InvokeAllCalls | js/visualisation/carousel.js:128 | every registered callback is called exactly once, in registration order, with the index |
| Carousel.InvokeAllNavigation | js/visualisation/carousel.js:68-71 | with the arrow hider registered, "prev" is hidden exactly at index 0 and "next" exactly when no slide follows the visible ones; without it the arrows are untouched |
| Carousel.InvokeAllIndicator | js/visualisation/carousel.js:95-104 | with the indicator registered and a button for the index, exactly that button is active; otherwise the flags are untouched |
| Carousel.Carousel.OnMove | js/visualisation/carousel.js:141-143 | a callback is registered after the others |
| Carousel.Carousel.FireMoveCallbacks | js/visualisation/carousel.js:128 | the loop calls every registered callback in order with the index |
| Carousel.Carousel.GoToItem | js/visualisation/carousel.js:116-129 | the index settles on the redirected target, decided from the index before the move, and every callback is then called with it |
| Carousel.Carousel.Next | js/visualisation/carousel.js:108-110 | `next` goes to the redirect of the index plus the getter's step |
| Carousel.Carousel.Prev | js/visualisation/carousel.js:112-114 | `prev` goes to the redirect of the index minus the getter's step |
| Carousel.Carousel.ResetInfinite | js/visualisation/carousel.js:131-139 | runs in infinite mode only. On a real slide nothing changes; from a leading clone it goes one real count forward, and from a trailing clone one back, through goToItem |
| Carousel.Carousel.CreateSlideIndicator | js/visualisation/carousel.js:74-105 | one inactive button is added per start 0, step, 2·step, … up to the real count minus the configured visible count, and the indicator callback is registered |
| Carousel.Carousel.OnWindowResize | js/visualisation/carousel.js:145-153 | the mobile flag becomes `width < 1200`. Only a flip re-fires the callbacks with the current index and toggles the indicators; a repeat call with the same width changes nothing |

## Left out

- Layout arithmetic is not modelled: the widths in `setStyle`, `adjustHeight`, and the `translate3d` percentage are floating point and depend on rendering. The same goes for `js/visualisation/carrousel.js`.
- DOM construction is not modelled: elements, `cloneNode`, class toggling and the `dom_helpers` modules are thin wrappers over the browser. Clones are copies of the slide value, and CSS classes are boolean fields.
- Event plumbing is not modelled: `addEventListener`, `transitionend`, window `resize`, the 250 ms blur timer and `scrollIntoView`. Each handler is a method, called one after another. The timer is the `BlurElapsed` method.
- Carousel.Carousel.constructor: the constructor returns the wrapper element, not the carousel. The model returns the carousel so that its handlers can be called.
- Carousel.Create: requires a `slidesToScroll` of at least 1, since the design makes the step a positive integer. With a smaller step and the slide indicator on, the indicator loop of js/visualisation/carousel.js:87 can fail to end.
- The carousel's slide count, visible count and offset are integers. Non-integer or missing options are not modelled.
- `localStorage`, `JSON.parse` and `JSON.stringify` are not modelled: the store is a map from key to array. Equality of JSON texts is structural equality of values. A JSON parse error is not modelled.
- Stored JSON objects are assumed to have unique keys, as `JSON.parse` produces.
- `for…in` and `Object.values` list integer-like keys first in ascending order. The model keeps insertion order for all keys.
- Storage.StoreIfNewSpec: js/storage.js reads the key from the configuration with `getConfigValue` (a network fetch). The model takes the key as a parameter, as js/utils/storage.js does.
- `getConfigValue`, `loadFormConfig`, `js/script.js`, the async `build` of `js/tea_form.js` and `buildFieldRow` only fetch the configuration and assemble the page.
- `resetForm` is not modelled: it only queries the DOM and resets it.
- `setCustomValidity` and `reportValidity` are browser validation messages and are not modelled.
- The `nbColumn` layout attribute is not modelled.
- CardLayout.Cards.constructor: a stored item that is not an object gives no keys.
- Storage.Dedup: `new Set` compares arrays and objects by identity, and `JSON.parse` gives fresh ones. So for array or object elements the source keeps structurally equal copies that the model removes. The lemmas built on it (DedupAbsorbs, MergeIdempotent, MergedAgain, ApplyUpdatesMerged) hold for the source only when the merged values are strings or null. The form merges only strings and string arrays, and an array is spread into strings before the merge.
- TeaForm.TeaForm.Submit: the marked elements are returned as ids. Their class and clearing listeners are modelled separately by Validator.FieldMarker, not as a per-element map inside the form.
- CardLayout.TextOf: its contract names the string, null and one-string-array cases. The general rendering (elements joined with ", ", null elements empty, nested arrays joined with ",") is its definition, not a stated property.
- TeaForm.BuildField: a field without a label in the page's language makes the source throw on `toLowerCase`; the model returns an error. A field without an English label is named "undefined", as `field.label.en` would render.
- Case mapping covers ASCII letters only; Unicode case folding is not modelled.

## Findings

| source | as written | input that shows it | evidently intended | confidence | as-written member | corrected member |
|---|---|---|---|---|---|---|
| js/visualisation/cards.js:2-3 | cards.js imports `../storage.js` and `../utils.js`. Those modules export neither `getDataFromLocalStorage` nor `buildFieldMapFromGroups`, so `utils.buildFieldMapFromGroups(...)` at line 20 throws a TypeError | any configuration and any store: `new Cards(config)` | import `../utils/storage.js` and `../utils/utils.js`, which export both functions, and build one card per stored record | not executed; the exports are read from the module texts | CardLayout.CardsWithRootModulesThrow | CardLayout.CardsWithUtilsModulesBuild |
