/** The string and dictionary helpers of js/utils/utils.js (and their earlier
    copies in js/utils.js). */
module Utils {
  import opened JsSemantics
  import opened Objects

  // ---------------------------------------------------------------------------
  // split and join

  /** `s.split(sep)` for a one-character separator. */
  function Split(s: string, sep: char): (parts: seq<string>)
    ensures |parts| >= 1
    ensures forall i :: 0 <= i < |parts| ==> sep !in parts[i]
  {
    if s == [] then [[]]
    else
      var rest := Split(s[1..], sep);
      if s[0] == sep then [[]] + rest else [[s[0]] + rest[0]] + rest[1..]
  }

  /** `parts.join(sep)` */
  function Join(parts: seq<string>, sep: string): string {
    if |parts| == 0 then []
    else if |parts| == 1 then parts[0]
    else parts[0] + sep + Join(parts[1..], sep)
  }

  /** Every occurrence of `from` replaced by `to`. */
  function ReplaceChar(s: string, from: char, to: char): (r: string)
    ensures |r| == |s|
    ensures forall i :: 0 <= i < |s| ==> r[i] == if s[i] == from then to else s[i]
  {
    seq(|s|, i requires 0 <= i < |s| => if s[i] == from then to else s[i])
  }

  lemma JoinCons(a: char, x: string, ps: seq<string>, sep: string)
    ensures Join([[a] + x] + ps, sep) == [a] + Join([x] + ps, sep)
  {
    if ps != [] {
      assert ([[a] + x] + ps)[1..] == ps == ([x] + ps)[1..];
    }
  }

  /** Splitting on c and joining with d replaces every c by d. */
  lemma {:induction false} JoinSplit(s: string, c: char, d: char)
    ensures Join(Split(s, c), [d]) == ReplaceChar(s, c, d)
  {
    if s != [] {
      var rest := Split(s[1..], c);
      JoinSplit(s[1..], c, d);
      if s[0] == c {
        assert ([[]] + rest)[1..] == rest;
      } else {
        JoinCons(s[0], rest[0], rest[1..], [d]);
        assert [rest[0]] + rest[1..] == rest;
      }
      assert ReplaceChar(s, c, d) == [ReplaceChar(s, c, d)[0]] + ReplaceChar(s[1..], c, d);
    }
  }

  /** A string without the separator splits into itself alone; one with it
      splits into the part before its first occurrence and the split of the rest. */
  lemma {:induction false} SplitFirst(s: string, c: char)
    ensures c !in s ==> Split(s, c) == [s]
    ensures c in s ==> |Split(s, c)| >= 2
    ensures forall k :: 0 <= k < |s| && s[k] == c && c !in s[..k] ==>
              Split(s, c) == [s[..k]] + Split(s[k + 1..], c)
  {
    if s != [] {
      SplitFirst(s[1..], c);
      assert c in s[1..] ==> c in s;
      if c !in s {
        assert c !in s[1..];
        assert [s[0]] + s[1..] == s;
      }
      forall k | 0 <= k < |s| && s[k] == c && c !in s[..k]
        ensures Split(s, c) == [s[..k]] + Split(s[k + 1..], c)
      {
        if k > 0 {
          assert s[1..][k - 1] == c && s[1..][..k - 1] == s[..k][1..];
          assert s[1..][k..] == s[k + 1..];
          assert [s[0]] + s[1..][..k - 1] == s[..k];
        }
      }
    }
  }

  // ---------------------------------------------------------------------------
  // snakeToTitleCase

  /** `word.charAt(0).toUpperCase() + word.slice(1)`; charAt(0) of "" is "". */
  function CapitalizeWord(w: string): string {
    if w == [] then [] else [ToUpperChar(w[0])] + w[1..]
  }

  function CapitalizeWords(ws: seq<string>): (r: seq<string>)
    ensures |r| == |ws|
  {
    if ws == [] then [] else [CapitalizeWord(ws[0])] + CapitalizeWords(ws[1..])
  }

  /** `str.split('_').map(capitalize word).join(' ')` */
  function SnakeToTitleCase(s: string): string {
    Join(CapitalizeWords(Split(s, '_')), " ")
  }

  /** What SnakeToTitleCase puts at position i: a space for every '_', the
      upper-case form of a character that starts a word, the character itself otherwise. */
  function TitleChar(s: string, i: nat): char
    requires i < |s|
  {
    if s[i] == '_' then ' '
    else if i == 0 || s[i - 1] == '_' then ToUpperChar(s[i])
    else s[i]
  }

  /** A character-by-character reference for SnakeToTitleCase. */
  function TitleScan(s: string, atWordStart: bool): (r: string)
    ensures |r| == |s|
  {
    if s == [] then []
    else if s[0] == '_' then [' '] + TitleScan(s[1..], true)
    else [if atWordStart then ToUpperChar(s[0]) else s[0]] + TitleScan(s[1..], false)
  }

  function JoinRest(ws: seq<string>): string {
    if ws == [] then [] else " " + Join(CapitalizeWords(ws), " ")
  }

  lemma JoinHead(a: string, ws: seq<string>, sep: string)
    ensures Join([a] + ws, sep) == a + (if ws == [] then [] else sep + Join(ws, sep))
  {
    if ws != [] {
      assert ([a] + ws)[1..] == ws;
    }
  }

  lemma {:induction false} TitleScanSplit(s: string)
    ensures var ps := Split(s, '_');
            && TitleScan(s, false) == ps[0] + JoinRest(ps[1..])
            && TitleScan(s, true) == CapitalizeWord(ps[0]) + JoinRest(ps[1..])
  {
    if s != [] {
      var rest := Split(s[1..], '_');
      TitleScanSplit(s[1..]);
      if s[0] == '_' {
        assert Split(s, '_')[1..] == rest;
        assert CapitalizeWords(rest) == [CapitalizeWord(rest[0])] + CapitalizeWords(rest[1..]);
        JoinHead(CapitalizeWord(rest[0]), CapitalizeWords(rest[1..]), " ");
        assert [CapitalizeWord(rest[0])] + CapitalizeWords(rest[1..]) == CapitalizeWords(rest);
      } else {
        assert Split(s, '_')[1..] == rest[1..];
        assert ([s[0]] + rest[0])[1..] == rest[0];
      }
    }
  }

  lemma {:induction false} TitleScanAt(s: string, atWordStart: bool, i: nat)
    requires i < |s|
    ensures TitleScan(s, atWordStart)[i] ==
            if s[i] == '_' then ' '
            else if (i == 0 && atWordStart) || (i > 0 && s[i - 1] == '_') then ToUpperChar(s[i])
            else s[i]
  {
    if i > 0 {
      TitleScanAt(s[1..], s[0] == '_', i - 1);
    }
  }

  /** snakeToTitleCase replaces every '_' by a space, upper-cases the first
      character of every word and keeps every other character. */
  lemma SnakeToTitleCaseSpec(s: string)
    ensures |SnakeToTitleCase(s)| == |s|
    ensures forall i :: 0 <= i < |s| ==> SnakeToTitleCase(s)[i] == TitleChar(s, i)
  {
    var ps := Split(s, '_');
    TitleScanSplit(s);
    assert CapitalizeWords(ps) == [CapitalizeWord(ps[0])] + CapitalizeWords(ps[1..]);
    JoinHead(CapitalizeWord(ps[0]), CapitalizeWords(ps[1..]), " ");
    assert SnakeToTitleCase(s) == TitleScan(s, true);
    forall i | 0 <= i < |s| ensures SnakeToTitleCase(s)[i] == TitleChar(s, i) {
      TitleScanAt(s, true, i);
    }
  }

  // ---------------------------------------------------------------------------
  // toLineBreak

  /** `parts.length <= 1 ? str : parts[0] + '\n' + parts.slice(1).join(' ')` */
  function ToLineBreak(s: string): string {
    var parts := Split(s, '_');
    if |parts| <= 1 then s else parts[0] + "\n" + Join(parts[1..], " ")
  }

  /** The position of the first c in s. */
  function FirstIndex(s: string, c: char): (k: nat)
    requires c in s
    ensures k < |s| && s[k] == c && c !in s[..k]
  {
    if s[0] == c then 0
    else
      assert c in s[1..];
      var k := FirstIndex(s[1..], c);
      assert s[..k + 1] == [s[0]] + s[1..][..k];
      k + 1
  }

  lemma {:induction false} ToLineBreakAtFirst(s: string, k: nat)
    requires k < |s| && s[k] == '_' && '_' !in s[..k]
    ensures ToLineBreak(s) == s[..k] + "\n" + ReplaceChar(s[k + 1..], '_', ' ')
  {
    SplitFirst(s, '_');
    JoinSplit(s[k + 1..], '_', ' ');
  }

  /** toLineBreak leaves a string without '_' alone; otherwise its first '_'
      becomes a line break, every later '_' a space, and nothing else changes. */
  lemma {:induction false} ToLineBreakSpec(s: string)
    ensures '_' !in s ==> ToLineBreak(s) == s
    ensures |ToLineBreak(s)| == |s|
    ensures forall i :: 0 <= i < |s| ==>
              ToLineBreak(s)[i] == if s[i] != '_' then s[i] else if '_' in s[..i] then ' ' else '\n'
  {
    SplitFirst(s, '_');
    if '_' in s {
      var k := FirstIndex(s, '_');
      ToLineBreakAtFirst(s, k);
      var r := ToLineBreak(s);
      var head := s[..k] + "\n";
      var tail := ReplaceChar(s[k + 1..], '_', ' ');
      assert r == head + tail && |head| == k + 1;
      forall i | 0 <= i < |s|
        ensures r[i] == if s[i] != '_' then s[i] else if '_' in s[..i] then ' ' else '\n'
      {
        if i < k {
          assert s[i] == s[..k][i];
          assert s[..i] == s[..k][..i];
          assert r[i] == s[i];
        } else if i > k {
          assert s[..i][k] == '_';
          assert r[i] == tail[i - (k + 1)];
        } else {
          assert s[..i] == s[..k];
        }
      }
    }
  }

  // ---------------------------------------------------------------------------
  // capitalize, requiredParam, getBasePath

  /** `String(str[0]).toUpperCase() + String(str).slice(1)`: for the empty
      string str[0] is undefined, which prints as "undefined". */
  function Capitalize(s: string): (r: string)
    ensures s != [] ==> |r| == |s| && r[0] == ToUpperChar(s[0]) && r[1..] == s[1..]
    ensures s == [] ==> r == "UNDEFINED"
  {
    if s == [] then ToUpperCase("undefined") else [ToUpperChar(s[0])] + s[1..]
  }

  /** Capitalizing twice is the same as capitalizing once. */
  lemma CapitalizeIdempotent(s: string)
    ensures Capitalize(Capitalize(s)) == Capitalize(s)
  {
    if s == [] {
      assert ToUpperCase("undefined") == "UNDEFINED";
    }
  }

  /** `requiredParam(name)` never returns: it throws an error naming the parameter. */
  function RequiredParam<T>(name: string): (r: Result<T>)
    ensures r.Err?
    ensures |r.error| == |name| + 24
    ensures StartsWith(r.error, "l'Argument \"") && r.error[12..12 + |name|] == name
    ensures r.error[12 + |name|..] == "\" est requis"
  {
    Err("l'Argument \"" + name + "\" est requis")
  }

  /** `path.endsWith('/') ? path : path + '/'` */
  function GetBasePath(path: string): (r: string)
    ensures |r| == if path != [] && path[|path| - 1] == '/' then |path| else |path| + 1
    ensures r[|r| - 1] == '/'
    ensures r[..|path|] == path
  {
    if path != [] && path[|path| - 1] == '/' then path else path + "/"
  }

  // ---------------------------------------------------------------------------
  // buildFieldMapFromGroups

  /** The dictionary built by copying every entry of every group, in order. */
  function FieldMapOf<V>(groups: seq<Entries<V>>): (m: Entries<V>)
    ensures UniqueKeys(m)
  {
    if groups == [] then []
    else AssignAll(FieldMapOf(groups[..|groups| - 1]), groups[|groups| - 1])
  }

  /** The value of key k in the last group that has k. */
  function LastGroupValue<V>(groups: seq<Entries<V>>, k: string): Option<V> {
    if groups == [] then None
    else if Latest(groups[|groups| - 1], k).Some? then Latest(groups[|groups| - 1], k)
    else LastGroupValue(groups[..|groups| - 1], k)
  }

  /** The merged dictionary has exactly the keys of the groups, and on a key
      that several groups share the later group wins. */
  lemma {:induction false} FieldMapOfLookup<V>(groups: seq<Entries<V>>, k: string)
    ensures Lookup(FieldMapOf(groups), k) == LastGroupValue(groups, k)
    ensures k in KeysOf(FieldMapOf(groups)) <==> exists g :: g in groups && k in KeysOf(g)
  {
    if groups != [] {
      var init, last := groups[..|groups| - 1], groups[|groups| - 1];
      FieldMapOfLookup(init, k);
      AssignAllLookup(FieldMapOf(init), last, k);
      assert groups == init + [last];
      if k in KeysOf(last) {
        assert Latest(last, k).Some?;
      } else {
        assert Latest(last, k).None?;
        assert (exists g :: g in groups && k in KeysOf(g)) <==> (exists g :: g in init && k in KeysOf(g));
      }
    }
  }

  /** `buildFieldMapFromGroups(fields)`: nested loops copying every entry of
      every group into one dictionary. */
  method BuildFieldMapFromGroups<V>(groups: seq<Entries<V>>) returns (m: Entries<V>)
    ensures m == FieldMapOf(groups)
  {
    m := [];
    for g := 0 to |groups|
      invariant m == FieldMapOf(groups[..g])
    {
      var group := groups[g];
      ghost var before := m;
      for j := 0 to |group|
        invariant UniqueKeys(m)
        invariant m == AssignAll(before, group[..j])
      {
        assert group[..j + 1][..j] == group[..j];
        m := Assign(m, group[j].0, group[j].1);
      }
      assert group[..|group|] == group;
      assert groups[..g + 1][..g] == groups[..g];
    }
    assert groups[..|groups|] == groups;
  }
}
