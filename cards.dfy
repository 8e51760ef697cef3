/** The card views of the stored records (js/visualisation/cards.js and
    js/visualisation/card.js): each record becomes a card whose header, body
    and footer list one element per record key whose field is placed in that
    section, styled by the field's role. */
module CardLayout {
  import opened JsSemantics
  import opened Objects
  import opened Json
  import opened Utils
  import opened Storage

  /** The two attributes of a configured field that the cards read; a
      missing attribute is the empty string. */
  datatype CardField = CardField(cardPosition: string, cardRole: string)

  /** A created element: its tag, its classes and its text content. */
  datatype Element = Element(tag: string, classes: seq<string>, text: string)

  /** A section of a card and the elements appended to it. */
  datatype SectionView = SectionView(name: string, elements: seq<Element>)

  /** How `String(x)` renders an array element inside `join`: null as the
      empty string, a nested array as its elements joined with ",". */
  function JoinedText(v: Value): string
    decreases v
  {
    match v
    case Null => ""
    case Str(s) => s
    case Arr(items) => Join(seq(|items|, i requires 0 <= i < |items| => JoinedText(items[i])), ",")
    case Obj(_) => "[object Object]"
  }

  /** `element.textContent = Array.isArray(value) ? value.join(", ") : value`
      (setting null gives the empty text). */
  function TextOf(v: Value): (r: string)
    ensures v.Str? ==> r == v.s
    ensures v.Null? ==> r == ""
    ensures v.Arr? && |v.items| == 1 && v.items[0].Str? ==> r == v.items[0].s
  {
    match v
    case Arr(items) => Join(seq(|items|, i requires 0 <= i < |items| => JoinedText(items[i])), ", ")
    case _ => JoinedText(v)
  }

  /** buildElementForField: a title is an h5 "card-title", a subtitle an h6
      "card-subtitle text-muted", any other role a p "card-text"; the text is
      the rendered value. */
  function ElementForField(f: CardField, value: Value): (e: Element)
    ensures e.tag == "h5" <==> f.cardRole == "title"
    ensures e.tag == "h6" <==> f.cardRole == "subtitle"
    ensures e.tag == "p" <==> f.cardRole != "title" && f.cardRole != "subtitle"
    ensures e.tag == "h5" ==> e.classes == ["card-title"]
    ensures e.tag == "h6" ==> e.classes == ["card-subtitle", "text-muted"]
    ensures e.tag == "p" ==> e.classes == ["card-text"]
    ensures e.text == TextOf(value)
  {
    if f.cardRole == "title" then Element("h5", ["card-title"], TextOf(value))
    else if f.cardRole == "subtitle" then Element("h6", ["card-subtitle", "text-muted"], TextOf(value))
    else Element("p", ["card-text"], TextOf(value))
  }

  /** The field a record key names: cards.js looks the lower-cased key up,
      card.js the key as it is. */
  function FieldFor(fieldMap: Entries<CardField>, key: string, lowerCase: bool): Option<CardField> {
    Lookup(fieldMap, if lowerCase then ToLowerCase(key) else key)
  }

  predicate InSection(fieldMap: Entries<CardField>, key: string, lowerCase: bool, name: string) {
    FieldFor(fieldMap, key, lowerCase).Some? && FieldFor(fieldMap, key, lowerCase).value.cardPosition == name
  }

  /** buildSection: one element per record entry whose field is placed in
      the named section, in record order. */
  function Section(fieldMap: Entries<CardField>, record: Entries<Value>, name: string, lowerCase: bool): (r: seq<Element>)
    ensures |r| <= |record|
  {
    if record == [] then []
    else
      var init, last := record[..|record| - 1], record[|record| - 1];
      Section(fieldMap, init, name, lowerCase)
      + if InSection(fieldMap, last.0, lowerCase, name)
        then [ElementForField(FieldFor(fieldMap, last.0, lowerCase).value, last.1)] else []
  }

  /** The number of record entries placed in the named section. */
  function CountIn(fieldMap: Entries<CardField>, record: Entries<Value>, name: string, lowerCase: bool): nat {
    if record == [] then 0
    else (if InSection(fieldMap, record[0].0, lowerCase, name) then 1 else 0)
         + CountIn(fieldMap, record[1..], name, lowerCase)
  }

  /** The number of record entries placed in any of the three sections. */
  function CountPlaced(fieldMap: Entries<CardField>, record: Entries<Value>, lowerCase: bool): nat {
    if record == [] then 0
    else
      var key := record[0].0;
      (if InSection(fieldMap, key, lowerCase, "header") || InSection(fieldMap, key, lowerCase, "body")
          || InSection(fieldMap, key, lowerCase, "footer") then 1 else 0)
      + CountPlaced(fieldMap, record[1..], lowerCase)
  }

  lemma {:induction false} CountInSnoc(fieldMap: Entries<CardField>, record: Entries<Value>, name: string, lowerCase: bool)
    requires record != []
    ensures CountIn(fieldMap, record, name, lowerCase)
            == CountIn(fieldMap, record[..|record| - 1], name, lowerCase)
               + if InSection(fieldMap, record[|record| - 1].0, lowerCase, name) then 1 else 0
  {
    if |record| > 1 {
      var tail := record[1..];
      assert tail[..|tail| - 1] == record[..|record| - 1][1..];
      CountInSnoc(fieldMap, tail, name, lowerCase);
    }
  }

  /** A section has exactly one element per record entry placed in it. */
  lemma {:induction false} SectionSize(fieldMap: Entries<CardField>, record: Entries<Value>, name: string, lowerCase: bool)
    ensures |Section(fieldMap, record, name, lowerCase)| == CountIn(fieldMap, record, name, lowerCase)
  {
    if record != [] {
      SectionSize(fieldMap, record[..|record| - 1], name, lowerCase);
      CountInSnoc(fieldMap, record, name, lowerCase);
    }
  }

  /** Sections keep the record order: the section of a concatenation is the
      concatenation of the sections. */
  lemma {:induction false} SectionAppend(fieldMap: Entries<CardField>, a: Entries<Value>, b: Entries<Value>, name: string, lowerCase: bool)
    ensures Section(fieldMap, a + b, name, lowerCase) == Section(fieldMap, a, name, lowerCase) + Section(fieldMap, b, name, lowerCase)
  {
    if b == [] {
      assert a + b == a;
    } else {
      var init := b[..|b| - 1];
      assert (a + b)[..|a + b| - 1] == a + init;
      assert (a + b)[|a + b| - 1] == b[|b| - 1];
      SectionAppend(fieldMap, a, init, name, lowerCase);
    }
  }

  /** The three sections share the placed entries out: no entry appears in
      two sections, none is lost. */
  lemma {:induction false} SectionsPartition(fieldMap: Entries<CardField>, record: Entries<Value>, lowerCase: bool)
    ensures |Section(fieldMap, record, "header", lowerCase)| + |Section(fieldMap, record, "body", lowerCase)|
            + |Section(fieldMap, record, "footer", lowerCase)| == CountPlaced(fieldMap, record, lowerCase)
  {
    SectionSize(fieldMap, record, "header", lowerCase);
    SectionSize(fieldMap, record, "body", lowerCase);
    SectionSize(fieldMap, record, "footer", lowerCase);
    CountsAdd(fieldMap, record, lowerCase);
  }

  lemma {:induction false} CountsAdd(fieldMap: Entries<CardField>, record: Entries<Value>, lowerCase: bool)
    ensures CountIn(fieldMap, record, "header", lowerCase) + CountIn(fieldMap, record, "body", lowerCase)
            + CountIn(fieldMap, record, "footer", lowerCase) == CountPlaced(fieldMap, record, lowerCase)
  {
    if record != [] {
      CountsAdd(fieldMap, record[1..], lowerCase);
    }
  }

  /** On a record whose keys are all lower case, the lower-casing lookup of
      cards.js and the exact lookup of card.js build the same section. */
  lemma {:induction false} LookupsAgreeOnLowerCaseKeys(fieldMap: Entries<CardField>, record: Entries<Value>, name: string)
    requires forall i :: 0 <= i < |record| ==> ToLowerCase(record[i].0) == record[i].0
    ensures Section(fieldMap, record, name, true) == Section(fieldMap, record, name, false)
  {
    if record != [] {
      LookupsAgreeOnLowerCaseKeys(fieldMap, record[..|record| - 1], name);
    }
  }

  /** The three sections of a record, in the order the sections object lists them. */
  function AllSections(fieldMap: Entries<CardField>, record: Entries<Value>, lowerCase: bool): seq<SectionView> {
    [SectionView("header", Section(fieldMap, record, "header", lowerCase)),
     SectionView("body", Section(fieldMap, record, "body", lowerCase)),
     SectionView("footer", Section(fieldMap, record, "footer", lowerCase))]
  }

  /** The sections that have children, in order. */
  function AttachedOf(sections: seq<SectionView>): (r: seq<SectionView>)
    ensures |r| <= |sections|
    ensures forall i :: 0 <= i < |r| ==> r[i].elements != [] && r[i] in sections
  {
    if sections == [] then []
    else (if sections[0].elements != [] then [sections[0]] else []) + AttachedOf(sections[1..])
  }

  /** The sections a card shows: the non-empty ones of header, body, footer. */
  function CardSections(fieldMap: Entries<CardField>, record: Entries<Value>, lowerCase: bool): seq<SectionView> {
    AttachedOf(AllSections(fieldMap, record, lowerCase))
  }

  function ElementCount(sections: seq<SectionView>): nat {
    if sections == [] then 0 else |sections[0].elements| + ElementCount(sections[1..])
  }

  function SectionRank(name: string): int {
    if name == "header" then 0 else if name == "body" then 1 else 2
  }

  /** Dropping the empty sections loses no element. */
  lemma {:induction false} ElementCountAttached(sections: seq<SectionView>)
    ensures ElementCount(AttachedOf(sections)) == ElementCount(sections)
  {
    if sections != [] {
      ElementCountAttached(sections[1..]);
      if sections[0].elements != [] {
        var rest := AttachedOf(sections[1..]);
        assert ([sections[0]] + rest)[1..] == rest;
      } else {
        assert AttachedOf(sections) == AttachedOf(sections[1..]);
      }
    }
  }

  /** Dropping the empty sections keeps the order of the others. */
  lemma {:induction false} AttachedOrdered(sections: seq<SectionView>)
    requires forall i, j :: 0 <= i < j < |sections| ==> SectionRank(sections[i].name) < SectionRank(sections[j].name)
    ensures forall i, j :: 0 <= i < j < |AttachedOf(sections)| ==>
              SectionRank(AttachedOf(sections)[i].name) < SectionRank(AttachedOf(sections)[j].name)
  {
    if sections != [] {
      var tail := sections[1..];
      AttachedOrdered(tail);
      var rest := AttachedOf(tail);
      if sections[0].elements != [] {
        forall j | 0 <= j < |rest|
          ensures SectionRank(sections[0].name) < SectionRank(rest[j].name)
        {
          var k :| 0 <= k < |tail| && tail[k] == rest[j];
          assert sections[k + 1] == rest[j];
        }
        var r := [sections[0]] + rest;
        assert AttachedOf(sections) == r;
        forall i, j | 0 <= i < j < |r|
          ensures SectionRank(r[i].name) < SectionRank(r[j].name)
        {
          if i > 0 {
            assert r[i] == rest[i - 1] && r[j] == rest[j - 1];
          }
        }
      }
    }
  }

  /** A card shows every placed entry of the record exactly once, and its
      sections come in the order header, body, footer. */
  lemma CardSectionsSpec(fieldMap: Entries<CardField>, record: Entries<Value>, lowerCase: bool)
    ensures ElementCount(CardSections(fieldMap, record, lowerCase)) == CountPlaced(fieldMap, record, lowerCase)
    ensures forall i, j :: 0 <= i < j < |CardSections(fieldMap, record, lowerCase)| ==>
              SectionRank(CardSections(fieldMap, record, lowerCase)[i].name)
              < SectionRank(CardSections(fieldMap, record, lowerCase)[j].name)
    ensures forall i :: 0 <= i < |CardSections(fieldMap, record, lowerCase)| ==>
              CardSections(fieldMap, record, lowerCase)[i].elements != []
  {
    var all := AllSections(fieldMap, record, lowerCase);
    SectionsPartition(fieldMap, record, lowerCase);
    ElementCountAttached(all);
    assert ElementCount(all[1..][1..]) == |all[2].elements| + ElementCount(all[1..][1..][1..]);
    assert ElementCount(all) == |all[0].elements| + |all[1].elements| + |all[2].elements|;
    AttachedOrdered(all);
  }

  lemma {:induction false} ElementCountAppend(a: seq<SectionView>, b: seq<SectionView>)
    ensures ElementCount(a + b) == ElementCount(a) + ElementCount(b)
  {
    if a != [] {
      assert (a + b)[1..] == a[1..] + b;
      ElementCountAppend(a[1..], b);
    } else {
      assert a + b == b;
    }
  }

  /** buildSection as the loop over the record's keys. */
  method BuildSection(fieldMap: Entries<CardField>, record: Entries<Value>, name: string, lowerCase: bool)
    returns (section: seq<Element>)
    ensures section == Section(fieldMap, record, name, lowerCase)
  {
    section := [];
    for i := 0 to |record|
      invariant section == Section(fieldMap, record[..i], name, lowerCase)
    {
      assert record[..i + 1][..i] == record[..i];
      var key := record[i].0;
      var field := FieldFor(fieldMap, key, lowerCase);
      if field.None? || field.value.cardPosition != name {
        continue;
      }
      var element := ElementForField(field.value, record[i].1);
      section := section + [element];
    }
    assert record[..|record|] == record;
  }

  /** Building the three sections and attaching the non-empty ones. */
  method BuildCardSections(fieldMap: Entries<CardField>, record: Entries<Value>, lowerCase: bool)
    returns (card: seq<SectionView>)
    ensures card == CardSections(fieldMap, record, lowerCase)
  {
    var header := BuildSection(fieldMap, record, "header", lowerCase);
    var body := BuildSection(fieldMap, record, "body", lowerCase);
    var footer := BuildSection(fieldMap, record, "footer", lowerCase);
    var sections := [SectionView("header", header), SectionView("body", body), SectionView("footer", footer)];
    card := [];
    for i := 0 to |sections|
      invariant card == AttachedOf(sections[..i])
    {
      AttachedAppend(sections[..i], [sections[i]]);
      assert sections[..i + 1] == sections[..i] + [sections[i]];
      if sections[i].elements != [] {
        card := card + [sections[i]];
      }
    }
    assert sections[..|sections|] == sections;
  }

  lemma {:induction false} AttachedAppend(a: seq<SectionView>, b: seq<SectionView>)
    ensures AttachedOf(a + b) == AttachedOf(a) + AttachedOf(b)
  {
    if a != [] {
      assert (a + b)[1..] == a[1..] + b;
      AttachedAppend(a[1..], b);
    } else {
      assert a + b == b;
    }
  }

  /** The entries a stored item enumerates with for…in when it is a record. */
  function RecordEntries(item: Value): Entries<Value> {
    if item.Obj? then item.entries else []
  }

  // ---------------------------------------------------------------------------
  // The modules js/visualisation/cards.js imports

  /** The names exported by js/utils.js, the module cards.js imports as `utils`. */
  const RootUtilsExports: set<string> :=
    {"getConfigValue", "loadFormConfig", "snakeToTitleCase", "toLineBreak", "capitalize", "requiredParam"}

  /** The names exported by js/storage.js, the module cards.js imports as `storage`. */
  const RootStorageExports: set<string> :=
    {"updateLocalStorage", "structureDataToStore", "storeDataIfNew"}

  /** The names exported by js/utils/utils.js. */
  const UtilsExports: set<string> :=
    {"getConfigValue", "snakeToTitleCase", "toLineBreak", "requiredParam", "capitalize", "buildFieldMapFromGroups"}

  /** The names exported by js/utils/storage.js. */
  const StorageExports: set<string> :=
    {"getDataFromLocalStorage", "updateLocalStorage", "structureDataToStore", "storeDataIfNew", "deleteDataByIndex"}

  /** The cards of the stored records under `objectKey`, in stored order. */
  function CardsOf(fieldMap: Entries<CardField>, data: map<string, seq<Value>>, objectKey: string): seq<seq<SectionView>>
  {
    var records := ReadKey(data, objectKey);
    seq(|records|, i requires 0 <= i < |records| => CardSections(fieldMap, RecordEntries(records[i]), true))
  }

  /** `new Cards(config)` against the module namespaces it is linked with:
      the constructor calls `utils.buildFieldMapFromGroups`, then
      `storage.getDataFromLocalStorage`; a namespace without the name gives
      undefined, and calling it throws a TypeError. */
  function NewCards(utilsExports: set<string>, storageExports: set<string>, rows: seq<Entries<CardField>>,
                    data: map<string, seq<Value>>, objectKey: string): (r: Result<seq<seq<SectionView>>>)
    ensures r.Err? <==> "buildFieldMapFromGroups" !in utilsExports || "getDataFromLocalStorage" !in storageExports
    ensures r.Ok? ==> |r.value| == |ReadKey(data, objectKey)|
  {
    if "buildFieldMapFromGroups" !in utilsExports then Err("TypeError: utils.buildFieldMapFromGroups is not a function")
    else if "getDataFromLocalStorage" !in storageExports then Err("TypeError: storage.getDataFromLocalStorage is not a function")
    else Ok(CardsOf(FieldMapOf(rows), data, objectKey))
  }

  /** As the imports are written, with the root-level modules, building the
      cards always throws, whatever the configuration and the store. */
  lemma CardsWithRootModulesThrow(rows: seq<Entries<CardField>>, data: map<string, seq<Value>>, objectKey: string)
    ensures NewCards(RootUtilsExports, RootStorageExports, rows, data, objectKey).Err?
  {
    assert "buildFieldMapFromGroups" !in RootUtilsExports;
  }

  /** With the modules under js/utils/, which the imports evidently mean, the
      cards are built: one per stored record, each holding one element per
      placed key, its sections in header, body, footer order, none empty. */
  lemma {:induction false} CardsWithUtilsModulesBuild(rows: seq<Entries<CardField>>, data: map<string, seq<Value>>, objectKey: string)
    ensures var r := NewCards(UtilsExports, StorageExports, rows, data, objectKey);
            var records := ReadKey(data, objectKey);
            && r.Ok? && |r.value| == |records|
            && forall i :: 0 <= i < |records| ==>
                 && r.value[i] == CardSections(FieldMapOf(rows), RecordEntries(records[i]), true)
                 && ElementCount(r.value[i]) == CountPlaced(FieldMapOf(rows), RecordEntries(records[i]), true)
  {
    assert "buildFieldMapFromGroups" in UtilsExports && "getDataFromLocalStorage" in StorageExports;
    var records := ReadKey(data, objectKey);
    forall i | 0 <= i < |records|
      ensures ElementCount(CardSections(FieldMapOf(rows), RecordEntries(records[i]), true))
              == CountPlaced(FieldMapOf(rows), RecordEntries(records[i]), true)
    {
      CardSectionsSpec(FieldMapOf(rows), RecordEntries(records[i]), true);
    }
  }

  /** js/visualisation/cards.js: one card per stored record, in stored order. */
  class Cards {
    const fieldMap: Entries<CardField>
    var cards: seq<seq<SectionView>>

    constructor (rows: seq<Entries<CardField>>, store: LocalStore, objectKey: string)
      ensures fieldMap == FieldMapOf(rows)
      ensures var records := ReadKey(store.data, objectKey);
              && |cards| == |records|
              && forall i :: 0 <= i < |records| ==> cards[i] == CardSections(fieldMap, RecordEntries(records[i]), true)
      ensures cards == CardsOf(fieldMap, store.data, objectKey)
    {
      var map_ := BuildFieldMapFromGroups(rows);
      fieldMap := map_;
      var records := store.GetDataFromLocalStorage(objectKey);
      var built: seq<seq<SectionView>> := [];
      for i := 0 to |records|
        invariant |built| == i
        invariant forall j :: 0 <= j < i ==> built[j] == CardSections(map_, RecordEntries(records[j]), true)
      {
        var card := BuildCardSections(map_, RecordEntries(records[i]), true);
        built := built + [card];
      }
      cards := built;
    }
  }

  /** js/visualisation/card.js: the card of one record, with exact key lookup. */
  class Card {
    const data: Entries<Value>
    const fieldMap: Entries<CardField>

    constructor (data: Entries<Value>, fieldMap: Entries<CardField>)
      ensures this.data == data && this.fieldMap == fieldMap
    {
      this.data := data;
      this.fieldMap := fieldMap;
    }

    /** build */
    method Build() returns (card: seq<SectionView>)
      ensures card == CardSections(fieldMap, data, false)
    {
      card := BuildCardSections(fieldMap, data, false);
    }
  }
}
