/**
 * Parsed JSON values as Python's json module hands them over, with the few
 * Python operations the question loader applies to them: dict.get, truthiness,
 * str() and int() on a string of digits.
 */
module Json {
  import opened Wrappers

  /** A JSON value. Objects keep their members in document order. */
  datatype Json =
    | JNull
    | JBool(b: bool)
    | JInt(i: int)
    | JStr(s: string)
    | JList(items: seq<Json>)
    | JObj(fields: seq<Field>)

  datatype Field = Field(key: string, value: Json)

  /** dict.get(key): json.load keeps the last member with a repeated key. */
  function Get(fields: seq<Field>, key: string): (r: Option<Json>)
    ensures r.Some? <==> exists i :: 0 <= i < |fields| && fields[i].key == key
    ensures r.Some? ==> exists i :: 0 <= i < |fields| && fields[i] == Field(key, r.value)
                                 && forall j :: i < j < |fields| ==> fields[j].key != key
  {
    if fields == [] then None
    else if fields[|fields| - 1].key == key then Some(fields[|fields| - 1].value)
    else Get(fields[..|fields| - 1], key)
  }

  /** dict.get(key, default). */
  function GetOr(fields: seq<Field>, key: string, default: Json): (r: Json)
    ensures (exists i :: 0 <= i < |fields| && fields[i].key == key) || r == default
  {
    Get(fields, key).GetOr(default)
  }

  /** bool(value). */
  predicate Truthy(j: Json) {
    match j
    case JNull => false
    case JBool(b) => b
    case JInt(i) => i != 0
    case JStr(s) => s != []
    case JList(items) => items != []
    case JObj(fields) => fields != []
  }

  // ----------------------------------------------------------------------
  // Decimal numerals
  // ----------------------------------------------------------------------

  function DigitChar(d: nat): (c: char)
    requires d < 10
    ensures '0' <= c <= '9' && (c as int) - ('0' as int) == d
  {
    ('0' as int + d) as char
  }

  /** The decimal digits this model covers: ASCII '0' to '9' only (Python's int() also reads the other Unicode decimal digits). */
  predicate IsDecimal(c: char) {
    '0' <= c <= '9'
  }

  /** str(n) for a natural number. */
  function NatToString(n: nat): (r: string)
    ensures r != [] && forall i :: 0 <= i < |r| ==> IsDecimal(r[i])
    ensures (r[0] == '0') ==> n == 0
  {
    if n < 10 then [DigitChar(n)] else NatToString(n / 10) + [DigitChar(n % 10)]
  }

  /** The value of a string of decimal digits, as int() reads it. */
  function DigitsValue(s: string): (v: nat)
    requires forall i :: 0 <= i < |s| ==> IsDecimal(s[i])
    ensures s == [] ==> v == 0
  {
    if s == [] then 0
    else
      assert IsDecimal(s[|s| - 1]);
      DigitsValue(s[..|s| - 1]) * 10 + ((s[|s| - 1] as int) - ('0' as int))
  }

  /** int(str(n)) == n. */
  lemma {:induction false} NatToStringRoundTrip(n: nat)
    ensures DigitsValue(NatToString(n)) == n
  {
    var r := NatToString(n);
    if n >= 10 {
      NatToStringRoundTrip(n / 10);
      assert r[..|r| - 1] == NatToString(n / 10);
    }
  }

  /** str(i) for an integer. */
  function IntToString(i: int): (r: string)
    ensures r != []
    ensures i >= 0 <==> IsDecimal(r[0])
  {
    if i < 0 then "-" + NatToString(-i) else NatToString(i)
  }

  // ----------------------------------------------------------------------
  // str() and repr()
  // ----------------------------------------------------------------------

  function Join(parts: seq<string>): (r: string)
    ensures parts == [] ==> r == []
    ensures |parts| == 1 ==> r == parts[0]
  {
    if parts == [] then []
    else if |parts| == 1 then parts[0]
    else Join(parts[..|parts| - 1]) + ", " + parts[|parts| - 1]
  }

  /**
   * repr() of a value as json.load builds it; the quoting of a string is the
   * plain single-quoted form (escapes are not modelled).
   */
  function Repr(j: Json): (r: string)
    ensures r != []
  {
    match j
    case JNull => "None"
    case JBool(b) => if b then "True" else "False"
    case JInt(i) => IntToString(i)
    case JStr(s) => "'" + s + "'"
    case JList(items) =>
      "[" + Join(seq(|items|, k requires 0 <= k < |items| => Repr(items[k]))) + "]"
    case JObj(fields) =>
      "{" + Join(seq(|fields|, k requires 0 <= k < |fields| =>
        "'" + fields[k].key + "': " + Repr(fields[k].value))) + "}"
  }

  /** str(): a string is itself, everything else is its repr. */
  function Str(j: Json): string {
    if j.JStr? then j.s else Repr(j)
  }

  /**
   * str.isdigit on one character, over the digits this model covers: the ASCII
   * decimal digits and the Latin-1 superscripts one, two and three. Python
   * accepts every Unicode digit (other superscripts, circled digits, other
   * scripts' decimal digits); those are not covered.
   */
  predicate IsDigit(c: char) {
    IsDecimal(c) || c == '\U{B2}' || c == '\U{B3}' || c == '\U{B9}'
  }

  /** str.isdigit: non-empty and all digits. */
  predicate IsDigitString(s: string) {
    s != [] && forall i :: 0 <= i < |s| ==> IsDigit(s[i])
  }

  /** Only a non-negative integer prints as a string of digits. */
  lemma StrOfDigits(j: Json)
    requires IsDigitString(Str(j))
    ensures j.JStr? || (j.JInt? && j.i >= 0)
  {
    var r := Str(j);
    assert IsDigit(r[0]);
    match j
    case JNull =>
    case JBool(b) =>
    case JInt(i) =>
    case JStr(s) =>
    case JList(items) =>
    case JObj(fields) =>
  }
}
