/**
 * Decoded JSON / YAML values as the Python side sees them after json.load or
 * yaml.safe_load, with the two Python builtins the source applies to them:
 * truthiness (`if x:`) and `str(x).lower()`.
 */
module Json {
  import opened Wrappers

  /** A decoded value. Numbers are integers: the float-to-int truncation of
      the source is not modelled. */
  datatype Value =
    | Null
    | Bool(b: bool)
    | Num(n: int)
    | Str(s: string)
    | Arr(items: seq<Value>)
    | Obj(fields: seq<(string, Value)>)

  /** A decoded object, in insertion order (Python dicts keep it). */
  type Dict = seq<(string, Value)>

  /** The keys of a decoded object. */
  function KeysOf(d: Dict): (ks: set<string>)
    ensures forall i :: 0 <= i < |d| ==> d[i].0 in ks
    ensures forall k :: k in ks ==> exists i :: 0 <= i < |d| && d[i].0 == k
  {
    set i | 0 <= i < |d| :: d[i].0
  }

  /** A decoded object never holds one key twice. */
  ghost predicate DistinctKeys(d: Dict) {
    forall i, j :: 0 <= i < j < |d| ==> d[i].0 != d[j].0
  }

  /** `d[k]` / `d.get(k)`: the value stored under `k`, if any. */
  function Get(d: Dict, k: string): (r: Option<Value>)
    ensures r.Some? <==> k in KeysOf(d)
    ensures r.Some? ==> (k, r.value) in d
  {
    if d == [] then None
    else if d[0].0 == k then Some(d[0].1)
    else
      var r := Get(d[1..], k);
      assert forall i :: 0 <= i < |d| - 1 ==> d[1..][i] == d[i + 1];
      r
  }

  /**
   * In an object with distinct keys, as every decoded one has, the lookup
   * finds the one entry under the key, so reading the first or the last
   * occurrence is the same.
   */
  lemma {:induction false} GetDistinct(d: Dict, i: nat)
    requires DistinctKeys(d) && i < |d|
    ensures Get(d, d[i].0) == Some(d[i].1)
  {
    if i > 0 {
      assert d[0].0 != d[i].0;
      assert d[1..][i - 1] == d[i];
      assert DistinctKeys(d[1..]) by {
        assert forall a, b :: 0 <= a < b < |d| - 1 ==> d[1..][a] == d[a + 1] && d[1..][b] == d[b + 1];
      }
      GetDistinct(d[1..], i - 1);
    }
  }

  /** Python truthiness: None, False, 0, "" and empty containers are false. */
  predicate Truthy(v: Value) {
    match v
    case Null => false
    case Bool(b) => b
    case Num(n) => n != 0
    case Str(s) => s != ""
    case Arr(items) => items != []
    case Obj(fields) => fields != []
  }

  /** `str.lower()` on ASCII letters. Non-ASCII letters are left as they are;
      no keyword the source compares with is affected by that. */
  function Lower(s: string): (r: string)
    ensures |r| == |s|
    ensures forall i :: 0 <= i < |s| ==> r[i] == LowerChar(s[i])
  {
    if s == [] then [] else [LowerChar(s[0])] + Lower(s[1..])
  }

  /** Lowering `s` gives `t` when it does so character by character. */
  lemma LowerOf(s: string, t: string)
    requires |s| == |t|
    requires forall i :: 0 <= i < |s| ==> LowerChar(s[i]) == t[i]
    ensures Lower(s) == t
  {
  }

  /** Lowering a lower-cased string changes nothing. */
  lemma LowerIdempotent(s: string)
    ensures Lower(Lower(s)) == Lower(s)
  {
    assert forall i :: 0 <= i < |s| ==> Lower(Lower(s))[i] == Lower(s)[i];
  }

  /** Lowering a string without upper-case ASCII letters changes nothing. */
  lemma LowerKeepsLowercase(s: string)
    requires forall i :: 0 <= i < |s| ==> !('A' <= s[i] <= 'Z')
    ensures Lower(s) == s
  {
    assert forall i :: 0 <= i < |s| ==> Lower(s)[i] == s[i];
  }

  function LowerChar(c: char): char {
    if 'A' <= c <= 'Z' then (c as int + 32) as char else c
  }

  function DigitChar(d: int): char
    requires 0 <= d < 10
  {
    ('0' as int + d) as char
  }

  /** Python's `str(n)` for an integer. */
  function DecimalText(n: int): (r: string)
    decreases if n < 0 then 1 - n else n
  {
    if n < 0 then "-" + DecimalText(-n)
    else if n < 10 then [DigitChar(n)]
    else DecimalText(n / 10) + [DigitChar(n % 10)]
  }

  /**
   * Python's `str(v)`. A list or dict prints starting with a bracket; its
   * contents are not rendered, since every keyword the source compares the
   * text with starts with a letter.
   */
  function Text(v: Value): string {
    match v
    case Null => "None"
    case Bool(b) => if b then "True" else "False"
    case Num(n) => DecimalText(n)
    case Str(s) => s
    case Arr(_) => "[...]"
    case Obj(_) => "{...}"
  }

  /** `str(v).lower()`, case by case. */
  function LowerText(v: Value): (t: string)
    ensures v.Str? ==> t == Lower(v.s)
  {
    match v
    case Null => "none"
    case Bool(b) => if b then "true" else "false"
    case Num(n) => DecimalText(n)
    case Str(s) => Lower(s)
    case Arr(_) => "[...]"
    case Obj(_) => "{...}"
  }

  /** Digits and signs are not letters: lowering leaves a number's text alone. */
  lemma {:induction false} LowerDecimal(n: int)
    ensures Lower(DecimalText(n)) == DecimalText(n)
    decreases if n < 0 then 1 - n else n
  {
    var t := DecimalText(n);
    if n < 0 {
      LowerDecimal(-n);
    } else if n >= 10 {
      LowerDecimal(n / 10);
    }
    forall i | 0 <= i < |t| ensures LowerChar(t[i]) == t[i] {
      DecimalTextChars(n, i);
    }
  }

  lemma {:induction false} DecimalTextChars(n: int, i: int)
    requires 0 <= i < |DecimalText(n)|
    ensures DecimalText(n)[i] == '-' || '0' <= DecimalText(n)[i] <= '9'
    decreases if n < 0 then 1 - n else n
  {
    if n < 0 {
      if i > 0 { DecimalTextChars(-n, i - 1); }
    } else if n >= 10 {
      if i < |DecimalText(n / 10)| { DecimalTextChars(n / 10, i); }
    }
  }

  /** LowerText is `str(v).lower()`. */
  lemma LowerTextIsLowerOfText(v: Value)
    ensures LowerText(v) == Lower(Text(v))
  {
    match v
    case Null => LowerNone();
    case Bool(b) => LowerBool();
    case Num(n) => LowerDecimal(n);
    case Str(s) =>
    case Arr(_) => LowerKeepsLowercase("[...]");
    case Obj(_) => LowerKeepsLowercase("{...}");
  }

  lemma LowerNone()
    ensures Lower("None") == "none"
  {
    assert forall i :: 0 <= i < 4 ==> LowerChar("None"[i]) == "none"[i];
  }

  lemma LowerBool()
    ensures Lower("True") == "true" && Lower("False") == "false"
  {
    assert forall i :: 0 <= i < 4 ==> LowerChar("True"[i]) == "true"[i];
    assert forall i :: 0 <= i < 5 ==> LowerChar("False"[i]) == "false"[i];
  }
}
