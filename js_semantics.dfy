/** The few pieces of JavaScript semantics that the application code relies on
    and that differ from Dafny's built-in operators: the truncating remainder,
    Array.prototype.slice with relative indices, String.prototype.trim,
    startsWith and case mapping. */
module JsSemantics {

  datatype Option<+T> = None | Some(value: T)

  datatype Result<+T> = Ok(value: T) | Err(error: string)

  function Abs(x: int): nat { if x < 0 then -x else x }

  /** The quotient of `a / b` truncated toward zero, `Math.trunc(a / b)`. */
  function JsQuot(a: int, b: int): int
    requires b != 0
  {
    var q := if 0 <= a then a / Abs(b) else -((-a) / Abs(b));
    if b < 0 then -q else q
  }

  /** JavaScript's `a % b`: the remainder of the division truncated toward zero,
      so it carries the sign of the dividend (Dafny's `%` is Euclidean). It
      is what is left of `a` once the truncated quotient times `b` is taken
      away, and the bounds below make it the only such number. */
  function JsRem(a: int, b: int): (r: int)
    requires b != 0
    ensures 0 <= a ==> 0 <= r < Abs(b)
    ensures a < 0 ==> 0 - Abs(b) < r <= 0
    ensures a == b * JsQuot(a, b) + r
    ensures 0 <= a && 0 < b ==> r == a % b
  {
    if 0 <= a then a % Abs(b) else -((-a) % Abs(b))
  }

  /** The remainder of a number below twice the divisor. */
  lemma ModOnce(a: int, n: int)
    requires 0 < n && a < 2 * n
    ensures 0 <= a ==> a % n == if a < n then a else a - n
  {
    if n <= a {
      assert a == n * 1 + (a - n);
    }
  }

  /** How slice turns a relative index into a position in [0, len]:
      a negative index counts from the end, and both ends are clamped. */
  function SliceIndex(len: nat, rel: int): (k: nat)
    ensures k <= len
    ensures 0 <= rel ==> k == if rel <= len then rel else len
    ensures rel < 0 ==> k == if 0 <= len + rel then len + rel else 0
  {
    if rel < 0 then (if 0 <= len + rel then len + rel else 0)
    else if rel <= len then rel else len
  }

  /** `s.slice(start, end)` */
  function Slice<T>(s: seq<T>, start: int, end: int): (r: seq<T>)
    ensures |r| <= |s|
    ensures var k, e := SliceIndex(|s|, start), SliceIndex(|s|, end);
            r == if k < e then s[k..e] else []
  {
    var k, e := SliceIndex(|s|, start), SliceIndex(|s|, end);
    if k < e then s[k..e] else []
  }

  /** `s.slice(start)` */
  function SliceFrom<T>(s: seq<T>, start: int): (r: seq<T>)
    ensures r == s[SliceIndex(|s|, start)..]
  {
    Slice(s, start, |s|)
  }

  /** `s.splice(index, 1)` for an index inside the array */
  function RemoveAt<T>(s: seq<T>, index: nat): (r: seq<T>)
    requires index < |s|
    ensures |r| == |s| - 1
    ensures forall j :: 0 <= j < |r| ==> r[j] == if j < index then s[j] else s[j + 1]
    ensures multiset(r) + multiset{s[index]} == multiset(s)
  {
    assert s == s[..index] + [s[index]] + s[index + 1..];
    s[..index] + s[index + 1..]
  }

  // ---------------------------------------------------------------------------
  // Characters and strings

  /** Case mapping of the ASCII letters (other characters are left alone). */
  function ToUpperChar(c: char): (u: char)
    ensures 'a' <= c <= 'z' ==> 'A' <= u <= 'Z'
    ensures !('a' <= c <= 'z') ==> u == c
  {
    if 'a' <= c <= 'z' then (c as int - 32) as char else c
  }

  function ToLowerChar(c: char): (l: char)
    ensures 'A' <= c <= 'Z' ==> 'a' <= l <= 'z'
    ensures !('A' <= c <= 'Z') ==> l == c
  {
    if 'A' <= c <= 'Z' then (c as int + 32) as char else c
  }

  function ToUpperCase(s: string): (r: string)
    ensures |r| == |s|
    ensures forall i :: 0 <= i < |s| ==> r[i] == ToUpperChar(s[i])
  {
    if s == [] then [] else [ToUpperChar(s[0])] + ToUpperCase(s[1..])
  }

  function ToLowerCase(s: string): (r: string)
    ensures |r| == |s|
    ensures forall i :: 0 <= i < |s| ==> r[i] == ToLowerChar(s[i])
  {
    if s == [] then [] else [ToLowerChar(s[0])] + ToLowerCase(s[1..])
  }

  /** The characters String.prototype.trim removes: white space and line terminators. */
  predicate IsWhiteSpace(c: char) {
    c == ' ' || c == '\t' || c == '\n' || c == '\r' || c == '\U{B}' || c == '\U{C}'
    || c == '\U{A0}' || c == '\U{1680}' || ('\U{2000}' <= c <= '\U{200A}')
    || c == '\U{2028}' || c == '\U{2029}' || c == '\U{202F}' || c == '\U{205F}'
    || c == '\U{3000}' || c == '\U{FEFF}'
  }

  function TrimStart(s: string): (r: string)
    ensures |r| <= |s| && r == s[|s| - |r|..]
    ensures r != [] ==> !IsWhiteSpace(r[0])
    ensures forall i :: 0 <= i < |s| - |r| ==> IsWhiteSpace(s[i])
  {
    if s != [] && IsWhiteSpace(s[0]) then TrimStart(s[1..]) else s
  }

  function TrimEnd(s: string): (r: string)
    ensures |r| <= |s| && r == s[..|r|]
    ensures r != [] ==> !IsWhiteSpace(r[|r| - 1])
    ensures forall i :: |r| <= i < |s| ==> IsWhiteSpace(s[i])
  {
    if s != [] && IsWhiteSpace(s[|s| - 1]) then TrimEnd(s[..|s| - 1]) else s
  }

  /** `s.trim()`: the longest infix of `s` that neither starts nor ends with white space. */
  function Trim(s: string): (r: string)
    ensures r != [] ==> !IsWhiteSpace(r[0]) && !IsWhiteSpace(r[|r| - 1])
    ensures r == [] <==> forall i :: 0 <= i < |s| ==> IsWhiteSpace(s[i])
    ensures var k := |s| - |TrimStart(s)|;
            && k + |r| <= |s| && r == s[k..k + |r|]
            && (forall i :: 0 <= i < k ==> IsWhiteSpace(s[i]))
            && (forall i :: k + |r| <= i < |s| ==> IsWhiteSpace(s[i]))
  {
    var t := TrimStart(s);
    var r := TrimEnd(t);
    assert r == s[|s| - |t|..|s| - |t| + |r|];
    r
  }

  /** Trimming twice is trimming once. */
  lemma TrimIdempotent(s: string)
    ensures Trim(Trim(s)) == Trim(s)
  {
    var t := Trim(s);
    if t != [] {
      assert TrimStart(t) == t;
      assert TrimEnd(t) == t;
    }
  }

  /** `s.startsWith(prefix)` */
  predicate StartsWith(s: string, prefix: string) {
    |prefix| <= |s| && s[..|prefix|] == prefix
  }
}
