/**
 * The Python data the modelled helpers pass around: JSON-like values, insertion-ordered
 * dictionaries with string keys, ASCII case mapping and `str(n)` for natural numbers.
 */
module PyData {

  /** A Python value as the helpers see it (the shapes of a JSON document, plus tuples). */
  datatype Value =
    | VNone
    | VBool(b: bool)
    | VInt(i: int)
    | VStr(s: string)
    | VList(items: seq<Value>)
    | VTuple(items: seq<Value>)
    | VDict(entries: Dict)
    | VObject(kind: string)  // any other object (a `requests.Session`, a function), always truthy

  /** A Python `dict` with string keys, in insertion order. */
  type Dict = seq<(string, Value)>

  /** Python truthiness: None, False, 0 and empty containers are falsy. */
  predicate Truthy(v: Value) {
    match v
    case VNone => false
    case VBool(b) => b
    case VInt(i) => i != 0
    case VStr(s) => s != []
    case VList(items) => items != []
    case VTuple(items) => items != []
    case VDict(entries) => entries != []
    case VObject(_) => true
  }

  function Keys(d: Dict): (ks: seq<string>)
    ensures |ks| == |d| && forall i :: 0 <= i < |d| ==> ks[i] == d[i].0
  {
    seq(|d|, i requires 0 <= i < |d| => d[i].0)
  }

  predicate HasKey(d: Dict, k: string) {
    k in Keys(d)
  }

  /** No key occurs twice, as in every Python dict. */
  ghost predicate DistinctKeys(d: Dict) {
    forall i, j :: 0 <= i < j < |d| ==> d[i].0 != d[j].0
  }

  /** Position of the first entry with key `k`. */
  function IndexOf(d: Dict, k: string): (i: nat)
    requires HasKey(d, k)
    ensures i < |d| && d[i].0 == k
    ensures forall j :: 0 <= j < i ==> d[j].0 != k
  {
    if d[0].0 == k then 0 else IndexOf(d[1..], k) + 1
  }

  /** `d[k]` for a key that is present. */
  function Get(d: Dict, k: string): Value
    requires HasKey(d, k)
  {
    d[IndexOf(d, k)].1
  }

  /**
   * `d[k] = v`: an existing key keeps its position and takes the new value, a new key is
   * appended.
   */
  function DictSet(d: Dict, k: string, v: Value): (r: Dict)
    ensures HasKey(r, k) && Get(r, k) == v
    ensures forall k' :: HasKey(r, k') <==> HasKey(d, k') || k' == k
    ensures forall k' :: k' != k && HasKey(d, k') ==> Get(r, k') == Get(d, k')
    ensures DistinctKeys(d) ==> DistinctKeys(r)
    ensures |r| == |d| + (if HasKey(d, k) then 0 else 1)
    ensures forall i :: 0 <= i < |r| ==> r[i] in d || r[i] == (k, v)
  {
    if HasKey(d, k) then
      var i := IndexOf(d, k);
      var r := d[i := (k, v)];
      assert Keys(r) == Keys(d);
      forall k' | k' != k && HasKey(d, k') ensures Get(r, k') == Get(d, k') {
        assert IndexOf(r, k') == IndexOf(d, k');
      }
      r
    else
      var r := d + [(k, v)];
      assert Keys(r) == Keys(d) + [k];
      forall k' | HasKey(d, k') ensures IndexOf(r, k') == IndexOf(d, k') {
        IndexOfPrefix(d, [(k, v)], k');
      }
      r
  }

  lemma HasKeySnoc(d: Dict, e: (string, Value))
    ensures forall k :: HasKey(d + [e], k) <==> HasKey(d, k) || k == e.0
  {
    assert Keys(d + [e]) == Keys(d) + [e.0];
  }

  lemma {:induction false} IndexOfPrefix(d: Dict, e: Dict, k: string)
    requires HasKey(d, k)
    ensures HasKey(d + e, k) && IndexOf(d + e, k) == IndexOf(d, k)
  {
    assert (d + e)[0] == d[0];
    assert Keys(d + e)[IndexOf(d, k)] == k;
    if d[0].0 != k {
      assert (d + e)[1..] == d[1..] + e;
      assert Keys(d[1..])[IndexOf(d, k) - 1] == k;
      IndexOfPrefix(d[1..], e, k);
    }
  }

  // ASCII case mapping, as the `[A-Z]` classes of the modelled regular expressions see it.

  predicate IsUpper(c: char) {
    'A' <= c <= 'Z'
  }

  predicate IsLower(c: char) {
    'a' <= c <= 'z'
  }

  function LowerChar(c: char): (d: char)
    ensures !IsUpper(d)
    ensures !IsUpper(c) ==> d == c
  {
    if IsUpper(c) then (c as int + 32) as char else c
  }

  function UpperChar(c: char): (d: char)
    ensures !IsLower(d)
    ensures !IsLower(c) ==> d == c
  {
    if IsLower(c) then (c as int - 32) as char else c
  }

  /** `str.lower()` restricted to ASCII letters. */
  function Lower(s: string): (r: string)
    ensures |r| == |s|
    ensures forall i :: 0 <= i < |s| ==> r[i] == LowerChar(s[i])
  {
    seq(|s|, i requires 0 <= i < |s| => LowerChar(s[i]))
  }

  lemma LowerAppend(a: string, b: string)
    ensures Lower(a + b) == Lower(a) + Lower(b)
  {
  }

  // `str(n)` for a natural number and its inverse `int(s)`.

  function DigitChar(d: nat): char
    requires d < 10
  {
    ('0' as int + d) as char
  }

  predicate IsDigit(c: char) {
    '0' <= c <= '9'
  }

  /** Decimal notation of `n`, without leading zeros. */
  function Decimal(n: nat): (s: string)
    ensures |s| > 0 && forall i :: 0 <= i < |s| ==> IsDigit(s[i])
    ensures n > 0 ==> s[0] != '0'
  {
    if n < 10 then [DigitChar(n)] else Decimal(n / 10) + [DigitChar(n % 10)]
  }

  function ParseDecimal(s: string): nat
    requires forall i :: 0 <= i < |s| ==> IsDigit(s[i])
  {
    if s == [] then 0
    else
      assert IsDigit(s[|s| - 1]);
      10 * ParseDecimal(s[..|s| - 1]) + (s[|s| - 1] as int - '0' as int)
  }

  /** `int(str(n)) == n`. */
  lemma {:induction false} DecimalRoundTrip(n: nat)
    ensures ParseDecimal(Decimal(n)) == n
  {
    if n >= 10 {
      var s := Decimal(n);
      assert s[..|s| - 1] == Decimal(n / 10);
      DecimalRoundTrip(n / 10);
    }
  }
}
