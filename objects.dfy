/** A plain JavaScript object used as a dictionary: an ordered list of
    (key, value) entries. Assigning to a key that is already present replaces
    its value in place; a new key is appended, so iteration (`for…in`,
    `Object.values`, `Object.entries`) follows first-insertion order. */
module Objects {
  import opened JsSemantics

  type Entries<V> = seq<(string, V)>

  function KeysOf<V>(o: Entries<V>): (ks: seq<string>)
    ensures |ks| == |o|
    ensures forall i :: 0 <= i < |o| ==> ks[i] == o[i].0
  {
    seq(|o|, i requires 0 <= i < |o| => o[i].0)
  }

  /** `Object.values(o)` */
  function ValuesOf<V>(o: Entries<V>): (vs: seq<V>)
    ensures |vs| == |o|
    ensures forall i :: 0 <= i < |o| ==> vs[i] == o[i].1
  {
    seq(|o|, i requires 0 <= i < |o| => o[i].1)
  }

  lemma KeysOfSnoc<V>(es: Entries<V>)
    requires es != []
    ensures KeysOf(es) == KeysOf(es[..|es| - 1]) + [es[|es| - 1].0]
  {
  }

  predicate UniqueKeys<V>(o: Entries<V>) {
    forall i, j :: 0 <= i < j < |o| ==> o[i].0 != o[j].0
  }

  /** `o[k]` for an object whose keys are unique: the value of the entry with key k. */
  function Lookup<V>(o: Entries<V>, k: string): (r: Option<V>)
    ensures r.None? <==> k !in KeysOf(o)
    ensures r.Some? ==> exists i :: 0 <= i < |o| && o[i] == (k, r.value)
  {
    if o == [] then None
    else if o[0].0 == k then Some(o[0].1)
    else Lookup(o[1..], k)
  }

  /** The value written last for key k by a sequence of assignments. */
  function Latest<V>(es: Entries<V>, k: string): (r: Option<V>)
    ensures r.None? <==> k !in KeysOf(es)
  {
    if es == [] then None
    else if es[|es| - 1].0 == k then Some(es[|es| - 1].1)
    else
      assert KeysOf(es) == KeysOf(es[..|es| - 1]) + [es[|es| - 1].0];
      Latest(es[..|es| - 1], k)
  }

  /** In an object with unique keys, the lookup of the key at position i
      finds the value at position i. */
  lemma {:induction false} LookupAt<V>(o: Entries<V>, i: nat)
    requires UniqueKeys(o) && i < |o|
    ensures Lookup(o, o[i].0) == Some(o[i].1)
  {
    if i > 0 {
      assert o[0].0 != o[i].0;
      assert o[1..][i - 1] == o[i];
      LookupAt(o[1..], i - 1);
    }
  }

  /** The lookup of a key is determined by the entries alone: two objects with
      unique keys and the same entry at every position where k could be agree on k. */
  lemma {:induction false} LookupSame<V>(o: Entries<V>, r: Entries<V>, k: string)
    requires UniqueKeys(o) && UniqueKeys(r) && KeysOf(o) == KeysOf(r)
    requires forall i :: 0 <= i < |o| && o[i].0 == k ==> r[i] == o[i]
    ensures Lookup(r, k) == Lookup(o, k)
  {
    if k in KeysOf(o) {
      var i :| 0 <= i < |o| && KeysOf(o)[i] == k;
      LookupAt(o, i);
      LookupAt(r, i);
    }
  }

  /** Every entry with key k gets value v; the rest stay as they are. */
  function ReplaceValue<V>(o: Entries<V>, k: string, v: V): Entries<V> {
    seq(|o|, i requires 0 <= i < |o| => if o[i].0 == k then (k, v) else o[i])
  }

  lemma {:induction false} ReplaceValueLookup<V>(o: Entries<V>, k: string, v: V)
    requires UniqueKeys(o) && k in KeysOf(o)
    ensures var r := ReplaceValue(o, k, v);
            && UniqueKeys(r) && KeysOf(r) == KeysOf(o) && Lookup(r, k) == Some(v)
            && forall k' :: k' != k ==> Lookup(r, k') == Lookup(o, k')
  {
    var r := ReplaceValue(o, k, v);
    assert |r| == |o|;
    assert forall j :: 0 <= j < |r| ==> r[j].0 == o[j].0;
    assert KeysOf(r) == KeysOf(o);
    assert UniqueKeys(r);
    var i :| 0 <= i < |o| && KeysOf(o)[i] == k;
    LookupAt(r, i);
    forall k' | k' != k ensures Lookup(r, k') == Lookup(o, k') {
      LookupSame(o, r, k');
    }
  }

  lemma {:induction false} AppendLookup<V>(o: Entries<V>, k: string, v: V)
    requires UniqueKeys(o) && k !in KeysOf(o)
    ensures var r := o + [(k, v)];
            && UniqueKeys(r) && KeysOf(r) == KeysOf(o) + [k] && Lookup(r, k) == Some(v)
            && forall k' :: k' != k ==> Lookup(r, k') == Lookup(o, k')
  {
    var r := o + [(k, v)];
    assert KeysOf(r) == KeysOf(o) + [k];
    LookupAt(r, |o|);
    forall k' | k' != k ensures Lookup(r, k') == Lookup(o, k') {
      if k' in KeysOf(o) {
        var i :| 0 <= i < |o| && KeysOf(o)[i] == k';
        LookupAt(o, i);
        LookupAt(r, i);
      }
    }
  }

  /** `o[k] = v` */
  function Assign<V>(o: Entries<V>, k: string, v: V): (r: Entries<V>)
    requires UniqueKeys(o)
    ensures UniqueKeys(r)
    ensures KeysOf(r) == if k in KeysOf(o) then KeysOf(o) else KeysOf(o) + [k]
    ensures Lookup(r, k) == Some(v)
    ensures forall k' :: k' != k ==> Lookup(r, k') == Lookup(o, k')
  {
    if k in KeysOf(o) then
      ReplaceValueLookup(o, k, v);
      ReplaceValue(o, k, v)
    else
      AppendLookup(o, k, v);
      o + [(k, v)]
  }

  /** Performs `o[e.0] = e.1` for every entry e of es, in order. */
  function AssignAll<V>(o: Entries<V>, es: Entries<V>): (r: Entries<V>)
    requires UniqueKeys(o)
    ensures UniqueKeys(r)
  {
    if es == [] then o
    else
      var last := es[|es| - 1];
      Assign(AssignAll(o, es[..|es| - 1]), last.0, last.1)
  }

  /** After a run of assignments, every key written holds the value written
      last for it, and every other key is untouched. */
  lemma {:induction false} AssignAllLookup<V>(o: Entries<V>, es: Entries<V>, k: string)
    requires UniqueKeys(o)
    ensures Lookup(AssignAll(o, es), k) ==
            if Latest(es, k).Some? then Latest(es, k) else Lookup(o, k)
  {
    if es != [] {
      AssignAllLookup(o, es[..|es| - 1], k);
    }
  }

  /** The keys after a run of assignments are the old keys, then the new
      keys in the order they were first written. */
  lemma {:induction false} AssignAllKeys<V>(o: Entries<V>, es: Entries<V>)
    requires UniqueKeys(o)
    ensures forall k :: k in KeysOf(AssignAll(o, es)) <==> k in KeysOf(o) || k in KeysOf(es)
    ensures |o| <= |AssignAll(o, es)| && KeysOf(AssignAll(o, es))[..|o|] == KeysOf(o)
  {
    if es != [] {
      var init, last := es[..|es| - 1], es[|es| - 1];
      AssignAllKeys(o, init);
      var p := AssignAll(o, init);
      var r := Assign(p, last.0, last.1);
      assert AssignAll(o, es) == r;
      KeysOfSnoc(es);
      assert KeysOf(r)[..|p|] == KeysOf(p);
      assert KeysOf(r)[..|o|] == KeysOf(p)[..|o|];
    }
  }

  lemma {:induction false} UniqueLatestIsLookup<V>(o: Entries<V>, k: string)
    requires UniqueKeys(o)
    ensures Latest(o, k) == Lookup(o, k)
  {
    if o != [] && o[|o| - 1].0 != k {
      var init := o[..|o| - 1];
      UniqueLatestIsLookup(init, k);
      LookupPrefix(o, k);
    } else if o != [] {
      LookupPrefix(o, k);
    }
  }

  lemma {:induction false} LookupPrefix<V>(o: Entries<V>, k: string)
    requires o != []
    ensures Lookup(o, k) == if k in KeysOf(o[..|o| - 1]) then Lookup(o[..|o| - 1], k)
                            else if o[|o| - 1].0 == k then Some(o[|o| - 1].1) else None
  {
    if |o| > 1 {
      assert o[1..][..|o| - 2] == o[..|o| - 1][1..];
      LookupPrefix(o[1..], k);
      assert KeysOf(o[..|o| - 1]) == [o[0].0] + KeysOf(o[1..][..|o| - 2]);
    }
  }
}
