/** The local-storage helpers of js/utils/storage.js (and the earlier copy in
    js/storage.js). The browser's localStorage holding JSON texts is modelled
    as a map from key to the array that JSON.parse gives back. */
module Storage {
  import opened JsSemantics
  import opened Objects
  import opened Json

  /** One entry of `storageUpdates`: `{key, value}`. */
  datatype Update = Update(key: string, value: Value)

  predicate NoDuplicates<T(==)>(s: seq<T>) {
    forall i, j :: 0 <= i < j < |s| ==> s[i] != s[j]
  }

  /** `[...new Set(s)]`: the elements of s, each kept at its first occurrence. */
  function Dedup(s: seq<Value>): (r: seq<Value>)
    ensures NoDuplicates(r)
    ensures forall x :: x in r <==> x in s
  {
    if s == [] then []
    else
      var d := Dedup(s[..|s| - 1]);
      assert forall x :: x in s <==> x in s[..|s| - 1] || x == s[|s| - 1];
      if s[|s| - 1] in d then d else d + [s[|s| - 1]]
  }

  /** De-duplicating keeps what was there first: the de-duplication of a
      prefix is a prefix of the de-duplication of the whole. */
  lemma {:induction false} DedupPrefix(a: seq<Value>, b: seq<Value>)
    ensures |Dedup(a)| <= |Dedup(a + b)|
    ensures Dedup(a + b)[..|Dedup(a)|] == Dedup(a)
  {
    if b != [] {
      var init := b[..|b| - 1];
      assert (a + b)[..|a + b| - 1] == a + init;
      DedupPrefix(a, init);
    } else {
      assert a + b == a;
    }
  }

  /** A sequence without duplicates is its own de-duplication. */
  lemma {:induction false} DedupOfDistinct(s: seq<Value>)
    requires NoDuplicates(s)
    ensures Dedup(s) == s
  {
    if s != [] {
      var init := s[..|s| - 1];
      DedupOfDistinct(init);
      assert s[|s| - 1] !in init;
      assert init + [s[|s| - 1]] == s;
    }
  }

  /** Appending values that are all present already changes nothing. */
  lemma {:induction false} DedupAbsorbs(a: seq<Value>, b: seq<Value>)
    requires forall x :: x in b ==> x in a
    ensures Dedup(a + b) == Dedup(a)
  {
    if b != [] {
      var init := b[..|b| - 1];
      assert (a + b)[..|a + b| - 1] == a + init;
      DedupAbsorbs(a, init);
      assert b[|b| - 1] in Dedup(a + init);
    } else {
      assert a + b == a;
    }
  }

  /** `JSON.parse(localStorage.getItem(key)) || []` */
  function ReadKey(data: map<string, seq<Value>>, key: string): seq<Value> {
    if key in data then data[key] else []
  }

  /** The merged array `[...new Set([...existing, ...newValues])]`. */
  function Merge(existing: seq<Value>, v: Value): seq<Value> {
    Dedup(existing + AsList(v))
  }

  /** The store after the updates, applied one after another. */
  function ApplyUpdates(data: map<string, seq<Value>>, ups: seq<Update>): map<string, seq<Value>>
  {
    if ups == [] then data
    else
      var d := ApplyUpdates(data, ups[..|ups| - 1]);
      var u := ups[|ups| - 1];
      d[u.key := Merge(ReadKey(d, u.key), u.value)]
  }

  /** The values that the updates add under key k, in order. */
  function AddedUnder(ups: seq<Update>, k: string): seq<Value> {
    if ups == [] then []
    else
      var u := ups[|ups| - 1];
      AddedUnder(ups[..|ups| - 1], k) + (if u.key == k then AsList(u.value) else [])
  }

  /** After updateLocalStorage, a key that no update names is untouched. */
  lemma {:induction false} ApplyUpdatesUntouched(data: map<string, seq<Value>>, ups: seq<Update>, k: string)
    requires forall i :: 0 <= i < |ups| ==> ups[i].key != k
    ensures k in ApplyUpdates(data, ups) <==> k in data
    ensures ReadKey(ApplyUpdates(data, ups), k) == ReadKey(data, k)
  {
    if ups != [] {
      ApplyUpdatesUntouched(data, ups[..|ups| - 1], k);
    }
  }

  /** After updateLocalStorage, every key holds the old array followed by the
      values the updates add under it, with every repetition dropped: the old
      order is kept and each value appears once. */
  lemma {:induction false} ApplyUpdatesMerged(data: map<string, seq<Value>>, ups: seq<Update>, k: string)
    requires exists i :: 0 <= i < |ups| && ups[i].key == k
    ensures ReadKey(ApplyUpdates(data, ups), k) == Dedup(ReadKey(data, k) + AddedUnder(ups, k))
  {
    var init, u := ups[..|ups| - 1], ups[|ups| - 1];
    if u.key != k {
      var i :| 0 <= i < |ups| && ups[i].key == k;
      assert init[i].key == k;
      ApplyUpdatesMerged(data, init, k);
      LastUpdateElsewhere(data, ups, k);
    } else if exists i :: 0 <= i < |init| && init[i].key == k {
      ApplyUpdatesMerged(data, init, k);
      LastUpdateHere(data, ups, k);
      MergedAgain(ReadKey(data, k), AddedUnder(init, k), AsList(u.value));
    } else {
      ApplyUpdatesUntouched(data, init, k);
      AddedUnderNone(init, k);
      LastUpdateHere(data, ups, k);
      assert AddedUnder(ups, k) == AsList(u.value);
    }
  }

  lemma LastUpdateElsewhere(data: map<string, seq<Value>>, ups: seq<Update>, k: string)
    requires ups != [] && ups[|ups| - 1].key != k
    ensures ReadKey(ApplyUpdates(data, ups), k) == ReadKey(ApplyUpdates(data, ups[..|ups| - 1]), k)
    ensures AddedUnder(ups, k) == AddedUnder(ups[..|ups| - 1], k)
  {
  }

  lemma LastUpdateHere(data: map<string, seq<Value>>, ups: seq<Update>, k: string)
    requires ups != [] && ups[|ups| - 1].key == k
    ensures ReadKey(ApplyUpdates(data, ups), k)
            == Dedup(ReadKey(ApplyUpdates(data, ups[..|ups| - 1]), k) + AsList(ups[|ups| - 1].value))
    ensures AddedUnder(ups, k) == AddedUnder(ups[..|ups| - 1], k) + AsList(ups[|ups| - 1].value)
  {
  }

  lemma MergedAgain(a: seq<Value>, b: seq<Value>, c: seq<Value>)
    ensures Dedup(Dedup(a + b) + c) == Dedup(a + (b + c))
  {
    DedupConcat(a + b, c);
    assert a + b + c == a + (b + c);
  }

  lemma {:induction false} AddedUnderNone(ups: seq<Update>, k: string)
    requires forall i :: 0 <= i < |ups| ==> ups[i].key != k
    ensures AddedUnder(ups, k) == []
  {
    if ups != [] {
      AddedUnderNone(ups[..|ups| - 1], k);
    }
  }

  /** De-duplicating in two steps is the same as in one. */
  lemma {:induction false} DedupConcat(a: seq<Value>, b: seq<Value>)
    ensures Dedup(Dedup(a) + b) == Dedup(a + b)
  {
    if b != [] {
      var init, x := b[..|b| - 1], b[|b| - 1];
      DedupConcat(a, init);
      assert (Dedup(a) + b)[..|Dedup(a) + b| - 1] == Dedup(a) + init;
      assert (a + b)[..|a + b| - 1] == a + init;
      var d1 := Dedup(Dedup(a) + init);
      var d2 := Dedup(a + init);
      assert d1 == d2;
      assert x in Dedup(Dedup(a) + init) <==> x in Dedup(a) + init;
      assert x in Dedup(a + init) <==> x in a + init;
    } else {
      assert Dedup(a) + b == Dedup(a);
      assert a + b == a;
      DedupOfDistinct(Dedup(a));
    }
  }

  /** A repeated updateLocalStorage with the same updates changes nothing. */
  lemma {:induction false} MergeIdempotent(existing: seq<Value>, v: Value)
    ensures Merge(Merge(existing, v), v) == Merge(existing, v)
  {
    var m := Merge(existing, v);
    assert forall x :: x in AsList(v) ==> x in m;
    DedupAbsorbs(m, AsList(v));
    DedupOfDistinct(m);
  }

  /** `existingData.some(same JSON) ? unchanged : existingData.push(item)` */
  function StoreIfNew(data: map<string, seq<Value>>, key: string, item: Value): map<string, seq<Value>> {
    if item in ReadKey(data, key) then data
    else data[key := ReadKey(data, key) + [item]]
  }

  /** storeDataIfNew leaves the item stored exactly once more at most: it is
      present afterwards, the array grows by at most one, other keys are
      untouched, and a second identical call is a no-op. */
  lemma StoreIfNewSpec(data: map<string, seq<Value>>, key: string, item: Value)
    ensures item in ReadKey(StoreIfNew(data, key, item), key)
    ensures |ReadKey(data, key)| <= |ReadKey(StoreIfNew(data, key, item), key)| <= |ReadKey(data, key)| + 1
    ensures ReadKey(StoreIfNew(data, key, item), key)[..|ReadKey(data, key)|] == ReadKey(data, key)
    ensures forall k :: k != key ==> ReadKey(StoreIfNew(data, key, item), k) == ReadKey(data, k)
    ensures StoreIfNew(StoreIfNew(data, key, item), key, item) == StoreIfNew(data, key, item)
  {
  }

  /** The browser's localStorage, as arrays per key. */
  class LocalStore {
    var data: map<string, seq<Value>>

    constructor (initial: map<string, seq<Value>>)
      ensures data == initial
    {
      data := initial;
    }

    /** getDataFromLocalStorage: a missing key reads as the empty array. */
    function GetDataFromLocalStorage(key: string): (r: seq<Value>)
      reads this
      ensures key !in data ==> r == []
      ensures key in data ==> r == data[key]
    {
      ReadKey(data, key)
    }

    /** updateLocalStorage: for each update in order, merge its value(s) into
        the array under its key. */
    method UpdateLocalStorage(ups: seq<Update>)
      modifies this
      ensures data == ApplyUpdates(old(data), ups)
    {
      for i := 0 to |ups|
        invariant data == ApplyUpdates(old(data), ups[..i])
      {
        assert ups[..i + 1][..i] == ups[..i];
        var u := ups[i];
        var existing := ReadKey(data, u.key);
        var newValues := AsList(u.value);
        var merged := Dedup(existing + newValues);
        data := data[u.key := merged];
      }
      assert ups[..|ups|] == ups;
    }

    /** storeDataIfNew: append the record unless an equal one is stored. */
    method StoreDataIfNew(item: Value, key: string)
      modifies this
      ensures data == StoreIfNew(old(data), key, item)
    {
      var existing := ReadKey(data, key);
      var alreadyExists := item in existing;
      if !alreadyExists {
        existing := existing + [item];
        data := data[key := existing];
      }
    }

    /** deleteDataByIndex: an index outside the array leaves the store as it
        is; otherwise exactly that element goes and the rest keep their order. */
    method DeleteDataByIndex(key: string, index: int)
      modifies this
      ensures index < 0 || index >= |ReadKey(old(data), key)| ==> data == old(data)
      ensures 0 <= index < |ReadKey(old(data), key)| ==>
                data == old(data)[key := RemoveAt(ReadKey(old(data), key), index)]
    {
      var allData := ReadKey(data, key);
      if index < 0 || index >= |allData| {
        return;
      }
      data := data[key := RemoveAt(allData, index)];
    }
  }

  /** structureDataToStore: `data[fieldname] = value` for each pair in order. */
  method StructureDataToStore(values: Entries<Value>) returns (record: Entries<Value>)
    ensures record == AssignAll([], values)
  {
    record := [];
    for i := 0 to |values|
      invariant UniqueKeys(record)
      invariant record == AssignAll([], values[..i])
    {
      assert values[..i + 1][..i] == values[..i];
      record := Assign(record, values[i].0, values[i].1);
    }
    assert values[..|values|] == values;
  }

  /** The structured record maps each field name to the value given last for
      it, lists each name once, and has no other names. */
  lemma StructureDataSpec(values: Entries<Value>, k: string)
    ensures UniqueKeys(AssignAll([], values))
    ensures Lookup(AssignAll([], values), k) == Latest(values, k)
    ensures k in KeysOf(AssignAll([], values)) <==> k in KeysOf(values)
  {
    AssignAllLookup([], values, k);
    AssignAllKeys([], values);
  }
}
