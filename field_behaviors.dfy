/** The suggestion and selection logic of the form inputs
    (js/form/field_behaviors.js, and its earlier copy js/field_behaviors.js):
    a text input with a list of suggestion buttons under it, a keyboard
    highlight index, an optional "other" input that appears when the "other"
    option is picked, and, for multiple-choice fields, the list of chosen
    values shown as removable badges. */
module FieldBehaviors {
  import opened JsSemantics
  import opened Utils

  /** The keys the keydown handler tells apart. */
  datatype Key = ArrowDown | ArrowUp | Enter | Escape | OtherKey

  // ---------------------------------------------------------------------------
  // Highlight index arithmetic

  /** ArrowDown: `(currentIndex + 1) % items.length`. From "nothing
      highlighted" (-1) it goes to the first item, from the last back to the
      first, and it always lands on an item. */
  function NextIndex(index: int, n: nat): (r: int)
    requires n > 0
    ensures -1 <= index ==> 0 <= r < n
    ensures index == -1 ==> r == 0
    ensures 0 <= index < n ==> r == if index == n - 1 then 0 else index + 1
  {
    JsRem(index + 1, n)
  }

  /** ArrowUp: `(currentIndex - 1 + items.length) % items.length`. From an
      item it goes to the one before, from the first to the last; it always
      lands on an item, but from -1 it lands on the second-to-last item
      (the first one when there is only one). */
  function PrevIndex(index: int, n: nat): (r: int)
    requires n > 0
    ensures -1 <= index ==> 0 <= r < n
    ensures 0 <= index < n ==> r == if index == 0 then n - 1 else index - 1
    ensures index == -1 ==> r == if n == 1 then 0 else n - 2
  {
    if index < n then ModOnce(index - 1 + n, n); JsRem(index - 1 + n, n)
    else JsRem(index - 1 + n, n)
  }

  /** ArrowDown and ArrowUp undo each other on a highlighted item. */
  lemma NextPrevInverse(index: int, n: nat)
    requires 0 <= index < n
    ensures PrevIndex(NextIndex(index, n), n) == index
    ensures NextIndex(PrevIndex(index, n), n) == index
  {
  }

  // ---------------------------------------------------------------------------
  // Suggestion filters

  /** `options.filter(opt => !excluded.includes(opt))` */
  function Without(xs: seq<string>, excluded: seq<string>): (r: seq<string>)
    ensures |r| <= |xs|
    ensures forall x :: x in r <==> x in xs && x !in excluded
  {
    if xs == [] then []
    else (if xs[0] in excluded then [] else [xs[0]]) + Without(xs[1..], excluded)
  }

  /** Filtering keeps the order of the options: filtering a concatenation is
      concatenating the filtered parts. */
  lemma {:induction false} WithoutAppend(a: seq<string>, b: seq<string>, excluded: seq<string>)
    ensures Without(a + b, excluded) == Without(a, excluded) + Without(b, excluded)
  {
    if a != [] {
      assert (a + b)[1..] == a[1..] + b;
      WithoutAppend(a[1..], b, excluded);
    } else {
      assert a + b == b;
    }
  }

  /** Excluding nothing keeps every option, in order. */
  lemma {:induction false} WithoutNothing(xs: seq<string>)
    ensures Without(xs, []) == xs
  {
    if xs != [] {
      WithoutNothing(xs[1..]);
    }
  }

  /** Filtering twice by the same exclusions is filtering once. */
  lemma {:induction false} WithoutIdempotent(xs: seq<string>, excluded: seq<string>)
    ensures Without(Without(xs, excluded), excluded) == Without(xs, excluded)
  {
    if xs != [] {
      var rest := Without(xs[1..], excluded);
      WithoutIdempotent(xs[1..], excluded);
      if xs[0] !in excluded {
        assert Without(xs, excluded) == [xs[0]] + rest;
        assert ([xs[0]] + rest)[1..] == rest;
      } else {
        assert Without(xs, excluded) == rest;
      }
    }
  }

  /** `options.filter(ing => ing.startsWith(prefix) && !excluded.includes(ing))` */
  function Matching(xs: seq<string>, prefix: string, excluded: seq<string>): (r: seq<string>)
    ensures |r| <= |xs|
    ensures forall x :: x in r <==> x in xs && StartsWith(x, prefix) && x !in excluded
  {
    if xs == [] then []
    else (if StartsWith(xs[0], prefix) && xs[0] !in excluded then [xs[0]] else [])
         + Matching(xs[1..], prefix, excluded)
  }

  lemma {:induction false} MatchingAppend(a: seq<string>, b: seq<string>, prefix: string, excluded: seq<string>)
    ensures Matching(a + b, prefix, excluded) == Matching(a, prefix, excluded) + Matching(b, prefix, excluded)
  {
    if a != [] {
      assert (a + b)[1..] == a[1..] + b;
      MatchingAppend(a[1..], b, prefix, excluded);
    } else {
      assert a + b == b;
    }
  }

  /** The suggestions the autocomplete listener computes for the typed text:
      with blank input every option not yet selected; otherwise those that
      start with the capitalised trimmed input and are not yet selected. */
  function Suggested(options: seq<string>, selected: seq<string>, typed: string): (r: seq<string>)
    ensures forall x :: x in r <==>
              x in options && x !in selected
              && (Trim(typed) != [] ==> StartsWith(x, Capitalize(Trim(typed))))
  {
    var inputValue := Trim(typed);
    if inputValue == [] then Without(options, selected)
    else Matching(options, Capitalize(inputValue), selected)
  }

  /** The autocomplete keeps the order of the options. */
  lemma SuggestedAppend(a: seq<string>, b: seq<string>, selected: seq<string>, typed: string)
    ensures Suggested(a + b, selected, typed) == Suggested(a, selected, typed) + Suggested(b, selected, typed)
  {
    WithoutAppend(a, b, selected);
    MatchingAppend(a, b, Capitalize(Trim(typed)), selected);
  }

  /** The autocomplete result contains no selected value, so the second
      filter in populateSuggestions removes nothing more. */
  lemma {:induction false} SuggestedNotSelected(options: seq<string>, selected: seq<string>, typed: string)
    ensures Without(Suggested(options, selected, typed), selected) == Suggested(options, selected, typed)
  {
    NoneExcluded(Suggested(options, selected, typed), selected);
  }

  lemma {:induction false} NoneExcluded(xs: seq<string>, excluded: seq<string>)
    requires forall x :: x in xs ==> x !in excluded
    ensures Without(xs, excluded) == xs
  {
    if xs != [] {
      NoneExcluded(xs[1..], excluded);
    }
  }

  // ---------------------------------------------------------------------------
  // The list of chosen values

  /** The Add button: the trimmed input is appended, capitalised, when it is
      not blank and not itself in the list. The test is on the text before
      capitalisation, so it lets a value that differs from an entry only by
      its first letter's case through. */
  function AddChoice(selected: seq<string>, typed: string): (r: seq<string>)
    ensures |selected| <= |r| <= |selected| + 1 && r[..|selected|] == selected
    ensures |r| == |selected| + 1 <==> Trim(typed) != [] && Trim(typed) !in selected
    ensures |r| == |selected| + 1 ==> r[|selected|] == Capitalize(Trim(typed))
  {
    var ingredient := Trim(typed);
    if ingredient != [] && ingredient !in selected then selected + [Capitalize(ingredient)] else selected
  }

  /** Adding text that is already in capitalised form a second time changes nothing. */
  lemma AddChoiceCapitalisedIdempotent(selected: seq<string>, typed: string)
    requires Capitalize(Trim(typed)) == Trim(typed)
    ensures AddChoice(AddChoice(selected, typed), typed) == AddChoice(selected, typed)
  {
  }

  /** Text typed in lower case can be added twice: the duplicate test
      compares the typed text with the capitalised entries, so "green" added
      twice stores "Green" twice. */
  lemma AddChoiceTwiceDuplicates(selected: seq<string>, typed: string)
    requires Trim(typed) != [] && Trim(typed) !in selected
    requires Capitalize(Trim(typed)) != Trim(typed)
    ensures var c := Capitalize(Trim(typed));
            AddChoice(AddChoice(selected, typed), typed) == selected + [c, c]
  {
    var t := Trim(typed);
    assert t !in selected + [Capitalize(t)];
    assert selected + [Capitalize(t)] + [Capitalize(t)] == selected + [Capitalize(t), Capitalize(t)];
  }

  // ---------------------------------------------------------------------------
  // The widget

  /** One choice input: `single` for oneChoice (a read-only input with a
      dropdown and an "other" text input), otherwise multipleChoice (free
      text with autocomplete, an Add button and the chosen badges). */
  class ChoiceInput {
    const single: bool
    const options: seq<string>
    const other: string
    /** The input's text. */
    var inputValue: string
    /** The texts of the suggestion buttons currently in the list. */
    var shown: seq<string>
    /** `state.currentIndex` */
    var currentIndex: int
    /** The position of the suggestion carrying the highlight class, -1 for none. */
    var highlighted: int
    /** Whether the "other" input carries `d-none` (oneChoice only). */
    var otherHidden: bool
    /** `selectedChoices` (multipleChoice only). */
    var selected: seq<string>

    ghost predicate Valid()
      reads this
    {
      -1 <= currentIndex && (single ==> selected == [])
    }

    /** oneChoice: nothing suggested, nothing highlighted, the "other" input hidden. */
    constructor OneChoice(options: seq<string>, other: string)
      ensures Valid() && single && this.options == options && this.other == other
      ensures inputValue == [] && shown == [] && currentIndex == -1 && highlighted == -1
      ensures otherHidden && selected == []
    {
      single := true;
      this.options := options;
      this.other := other;
      inputValue := [];
      shown := [];
      currentIndex := -1;
      highlighted := -1;
      otherHidden := true;
      selected := [];
    }

    /** multipleChoice: nothing suggested and nothing chosen yet. */
    constructor MultipleChoice(options: seq<string>, other: string)
      ensures Valid() && !single && this.options == options && this.other == other
      ensures inputValue == [] && shown == [] && currentIndex == -1 && highlighted == -1
      ensures otherHidden && selected == []
    {
      single := false;
      this.options := options;
      this.other := other;
      inputValue := [];
      shown := [];
      currentIndex := -1;
      highlighted := -1;
      otherHidden := true;
      selected := [];
    }

    /** populateSuggestions: one button per option not excluded, in order,
        replacing the old list (and its highlight). */
    method PopulateSuggestions(opts: seq<string>, excluded: seq<string>)
      modifies this
      ensures shown == Without(opts, excluded) && highlighted == -1
      ensures inputValue == old(inputValue) && currentIndex == old(currentIndex)
      ensures otherHidden == old(otherHidden) && selected == old(selected)
    {
      var filtered := Without(opts, excluded);
      var buttons := [];
      for i := 0 to |filtered|
        invariant buttons == filtered[..i]
      {
        buttons := buttons + [filtered[i]];
      }
      shown := buttons;
      highlighted := -1;
    }

    /** Click on a oneChoice input: every option, "other" first. With no
        options the dropdown is never set up. */
    method OpenDropdown()
      requires single
      modifies this
      ensures |options| != 0 ==> shown == Without([other] + options, []) && highlighted == -1
      ensures |options| == 0 ==> shown == old(shown) && highlighted == old(highlighted)
      ensures inputValue == old(inputValue) && currentIndex == old(currentIndex)
      ensures otherHidden == old(otherHidden) && selected == old(selected)
    {
      if |options| != 0 {
        PopulateSuggestions([other] + options, []);
      }
    }

    /** The input event of a multipleChoice input after the user typed. */
    method TypeText(text: string)
      requires !single
      modifies this
      ensures inputValue == text
      ensures shown == Suggested(options, selected, text) && highlighted == -1
      ensures currentIndex == old(currentIndex)
      ensures otherHidden == old(otherHidden) && selected == old(selected)
    {
      inputValue := text;
      var filtered := Suggested(options, selected, text);
      shown := [];
      SuggestedNotSelected(options, selected, text);
      PopulateSuggestions(filtered, selected);
    }

    /** finalizeSelection: the input takes the chosen text, the list is
        emptied, nothing is highlighted, and the "other" input (oneChoice
        only) is visible exactly when "other" was chosen. */
    method FinalizeSelection(choice: string)
      requires Valid()
      modifies this
      ensures Valid()
      ensures inputValue == choice && shown == [] && currentIndex == -1
      ensures single ==> otherHidden == (choice != other)
      ensures !single ==> otherHidden == old(otherHidden)
      ensures highlighted == old(highlighted) && selected == old(selected)
    {
      var isOtherSelected := choice == other;
      inputValue := choice;
      shown := [];
      currentIndex := -1;
      if single {
        otherHidden := !isOtherSelected;
      }
    }

    /** A click on suggestion i: the button's own listener copies its text
        and empties the list, then the list's listener finalizes with it. */
    method ClickSuggestion(i: nat)
      requires Valid() && i < |shown|
      modifies this
      ensures Valid()
      ensures inputValue == old(shown)[i] && shown == [] && currentIndex == -1
      ensures single ==> otherHidden == (old(shown)[i] != other)
      ensures !single ==> otherHidden == old(otherHidden)
      ensures selected == old(selected)
    {
      var option := shown[i];
      inputValue := option;
      shown := [];
      FinalizeSelection(option);
    }

    /** The keydown handler. With no suggestions nothing happens. The arrow
        keys move the highlight with wrap-around; Enter finalizes the
        highlighted suggestion; Escape forgets the highlight index. Enter with
        an index left over from a longer list reads past the list and the
        handler stops with a TypeError (`threw`), changing nothing. */
    method KeyDown(key: Key) returns (threw: bool)
      requires Valid()
      modifies this
      ensures Valid()
      ensures threw <==> |old(shown)| != 0 && key == Enter && old(currentIndex) >= |old(shown)|
      ensures |old(shown)| == 0 || key == OtherKey || threw ==>
                currentIndex == old(currentIndex) && shown == old(shown) && inputValue == old(inputValue)
                && highlighted == old(highlighted) && otherHidden == old(otherHidden)
      ensures |old(shown)| != 0 && key == ArrowDown ==>
                currentIndex == NextIndex(old(currentIndex), |old(shown)|) && highlighted == currentIndex
                && 0 <= currentIndex < |shown| && shown == old(shown) && inputValue == old(inputValue)
                && otherHidden == old(otherHidden)
      ensures |old(shown)| != 0 && key == ArrowUp ==>
                currentIndex == PrevIndex(old(currentIndex), |old(shown)|) && highlighted == currentIndex
                && 0 <= currentIndex < |shown| && shown == old(shown) && inputValue == old(inputValue)
                && otherHidden == old(otherHidden)
      ensures |old(shown)| != 0 && key == Enter && old(currentIndex) == -1 ==>
                currentIndex == -1 && shown == old(shown) && inputValue == old(inputValue)
                && highlighted == old(highlighted) && otherHidden == old(otherHidden)
      ensures |old(shown)| != 0 && key == Enter && 0 <= old(currentIndex) < |old(shown)| ==>
                var choice := old(shown)[old(currentIndex)];
                && inputValue == choice && shown == [] && currentIndex == -1
                && highlighted == old(highlighted)
                && (single ==> otherHidden == (choice != other))
                && (!single ==> otherHidden == old(otherHidden))
      ensures |old(shown)| != 0 && key == Escape ==>
                currentIndex == -1 && shown == old(shown) && inputValue == old(inputValue)
                && highlighted == old(highlighted) && otherHidden == old(otherHidden)
      ensures selected == old(selected)
    {
      threw := false;
      var items := shown;
      if |items| == 0 {
        return;
      }
      match key {
        case ArrowDown =>
          currentIndex := JsRem(currentIndex + 1, |items|);
          highlighted := currentIndex;
        case ArrowUp =>
          currentIndex := JsRem(currentIndex - 1 + |items|, |items|);
          highlighted := currentIndex;
        case Enter =>
          if currentIndex >= 0 {
            if currentIndex >= |items| {
              threw := true;
              return;
            }
            FinalizeSelection(items[currentIndex]);
          }
        case Escape =>
          currentIndex := -1;
        case OtherKey =>
      }
    }

    /** The blur timer: 250 ms after the input loses focus the list empties. */
    method BlurElapsed()
      modifies this
      ensures shown == []
      ensures inputValue == old(inputValue) && currentIndex == old(currentIndex)
      ensures highlighted == old(highlighted)
      ensures otherHidden == old(otherHidden) && selected == old(selected)
    {
      shown := [];
    }

    /** The Add button of a multipleChoice input. */
    method Add()
      requires !single
      modifies this
      ensures selected == AddChoice(old(selected), old(inputValue))
      ensures inputValue == [] && shown == []
      ensures currentIndex == old(currentIndex) && highlighted == old(highlighted)
      ensures otherHidden == old(otherHidden)
    {
      var ingredient := Trim(inputValue);
      if ingredient != [] && ingredient !in selected {
        selected := selected + [Capitalize(ingredient)];
      }
      inputValue := [];
      shown := [];
    }

    /** The close button of badge i removes exactly that value. */
    method RemoveChoice(i: nat)
      requires !single && i < |selected|
      modifies this
      ensures selected == RemoveAt(old(selected), i)
      ensures inputValue == old(inputValue) && shown == old(shown)
      ensures currentIndex == old(currentIndex) && highlighted == old(highlighted)
      ensures otherHidden == old(otherHidden)
    {
      selected := RemoveAt(selected, i);
    }
  }
}
