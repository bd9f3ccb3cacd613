/**
 * The data a template is rendered against: the JavaScript values the
 * runtime helpers `resolve` and `each` (index.js:284-322) walk, with only
 * integral numbers, and the text `Array.prototype.join` gives each value
 * when the output buffer is joined (index.js:271).
 */
module Values {
  import opened Wrappers

  /** An object is its own properties in enumeration order; a repeated key is shadowed by its first occurrence. */
  datatype Value =
    | Str(s: string)
    | Num(n: int)
    | Bool(b: bool)
    | Null
    | Arr(elems: seq<Value>)
    | Obj(fields: seq<(string, Value)>)

  /** JavaScript truthiness: "", 0, false and null are falsy; arrays and objects never are. */
  predicate Truthy(v: Value)
  {
    match v
    case Str(s) => s != ""
    case Num(n) => n != 0
    case Bool(b) => b
    case Null => false
    case Arr(_) => true
    case Obj(_) => true
  }

  // ----- Decimal text of indices -----

  predicate IsDigit(c: char)
  {
    '0' <= c <= '9'
  }

  function DigitChar(d: nat): (c: char)
    requires d < 10
    ensures IsDigit(c) && DigitValue(c) == d
  {
    ('0' as int + d) as char
  }

  /** The decimal text of `n`, as `String(n)` gives it: digits only, no leading zero. */
  function NatToString(n: nat): (r: string)
    ensures |r| >= 1
    ensures forall i :: 0 <= i < |r| ==> IsDigit(r[i])
    ensures |r| > 1 ==> r[0] != '0'
    ensures n >= 10 <==> |r| > 1
  {
    if n < 10 then [DigitChar(n)] else NatToString(n / 10) + [DigitChar(n % 10)]
  }

  function DigitValue(c: char): (d: nat)
    requires IsDigit(c)
    ensures d < 10
  {
    c as int - '0' as int
  }

  /** The number a run of decimal digits denotes. */
  function DigitsValue(s: string): nat
    requires forall i :: 0 <= i < |s| ==> IsDigit(s[i])
  {
    if s == [] then 0
    else DigitsValue(s[..|s| - 1]) * 10 + DigitValue(s[|s| - 1])
  }

  /**
   * The index an array key names: a property name that is the canonical
   * decimal text of a natural number ("0", "12", but not "012" or "").
   */
  function ArrayIndex(key: string): Option<nat>
  {
    if |key| >= 1 && (forall i :: 0 <= i < |key| ==> IsDigit(key[i])) && (|key| == 1 || key[0] != '0')
    then Some(DigitsValue(key))
    else None
  }

  lemma {:induction false} DigitsValueOfNatToString(n: nat)
    ensures DigitsValue(NatToString(n)) == n
  {
    if n >= 10 {
      var r := NatToString(n);
      assert r[..|r| - 1] == NatToString(n / 10);
      DigitsValueOfNatToString(n / 10);
    }
  }

  /** A key that is not "0" and starts with a non-zero digit denotes at least 10^(len-1), so at least 1. */
  lemma {:induction false} DigitsValuePositive(s: string)
    requires |s| >= 1 && (forall i :: 0 <= i < |s| ==> IsDigit(s[i])) && s[0] != '0'
    ensures DigitsValue(s) >= 1
  {
    if |s| > 1 {
      DigitsValuePositive(s[..|s| - 1]);
    }
  }

  /** Array keys and decimal indices are in one-to-one correspondence. */
  lemma {:induction false} ArrayIndexRoundTrip(n: nat, key: string)
    ensures ArrayIndex(key) == Some(n) <==> key == NatToString(n)
  {
    if key == NatToString(n) {
      DigitsValueOfNatToString(n);
    }
    if ArrayIndex(key) == Some(n) {
      IndexKeyIsCanonical(key);
    }
  }

  lemma {:induction false} IndexKeyIsCanonical(key: string)
    requires ArrayIndex(key).Some?
    ensures NatToString(ArrayIndex(key).value) == key
    decreases |key|
  {
    var n := DigitsValue(key);
    if |key| == 1 {
      assert key[..|key| - 1] == [];
      assert n == DigitsValue(key[..|key| - 1]) * 10 + DigitValue(key[0]);
      assert DigitChar(n) == key[0];
    } else {
      var prefix := key[..|key| - 1];
      var d := DigitValue(key[|key| - 1]);
      assert |prefix| == 1 || prefix[0] == key[0];
      assert ArrayIndex(prefix).Some?;
      DigitsValuePositive(prefix);
      IndexKeyIsCanonical(prefix);
      assert n == DigitsValue(prefix) * 10 + d;
      assert n / 10 == DigitsValue(prefix) && n % 10 == d;
      assert key == prefix + [key[|key| - 1]];
    }
  }

  // ----- Property lookup -----

  /** The value of the first field named `key`, if any. */
  function Lookup(fields: seq<(string, Value)>, key: string): Option<Value>
  {
    if fields == [] then None
    else
      var earlier := Lookup(fields[..|fields| - 1], key);
      if earlier.Some? then earlier
      else if fields[|fields| - 1].0 == key then Some(fields[|fields| - 1].1)
      else None
  }

  /** The own keys of an object in enumeration order, each once. */
  function Keys(fields: seq<(string, Value)>): (ks: seq<string>)
    ensures forall i, j :: 0 <= i < j < |ks| ==> ks[i] != ks[j]
  {
    if fields == [] then []
    else
      var earlier := Keys(fields[..|fields| - 1]);
      if fields[|fields| - 1].0 in earlier then earlier else earlier + [fields[|fields| - 1].0]
  }

  /** An object enumerates exactly the keys it can look up. */
  lemma {:induction false} KeysAreLookups(fields: seq<(string, Value)>, key: string)
    ensures key in Keys(fields) <==> Lookup(fields, key).Some?
    decreases |fields|
  {
    if fields != [] {
      KeysAreLookups(fields[..|fields| - 1], key);
    }
  }

  /**
   * `obj[key]` for the values a template can reach: an array or a string
   * answers its `length` and its canonical indices, an object its own
   * fields, anything else nothing.
   */
  function Member(v: Value, key: string): Option<Value>
  {
    match v
    case Arr(xs) =>
      if key == "length" then Some(Num(|xs|))
      else if ArrayIndex(key).Some? && ArrayIndex(key).value < |xs| then Some(xs[ArrayIndex(key).value])
      else None
    case Str(s) =>
      if key == "length" then Some(Num(|s|))
      else if ArrayIndex(key).Some? && ArrayIndex(key).value < |s| then Some(Str([s[ArrayIndex(key).value]]))
      else None
    case Obj(fields) => Lookup(fields, key)
    case _ => None
  }

  // ----- Text of a value -----

  /** `String(v)` for the values above, with `join`'s rule that null inside an array prints as "". */
  function ToText(v: Value): string
  {
    match v
    case Str(s) => s
    case Num(n) => if n >= 0 then NatToString(n) else "-" + NatToString(-n)
    case Bool(b) => if b then "true" else "false"
    case Null => "null"
    case Arr(xs) => JoinElements(xs)
    case Obj(_) => "[object Object]"
  }

  /** A number's text is its canonical decimal numeral, after a minus sign when it is negative. */
  lemma NumberText(n: int)
    ensures n >= 0 ==> ArrayIndex(ToText(Num(n))) == Some(n)
    ensures n < 0 ==> |ToText(Num(n))| >= 2 && ToText(Num(n))[0] == '-' && ArrayIndex(ToText(Num(n))[1..]) == Some(-n)
  {
    var m: nat := if n >= 0 then n else -n;
    DigitsValueOfNatToString(m);
    if n < 0 {
      assert ToText(Num(n))[1..] == NatToString(m);
    }
  }

  /** `Array.prototype.join(",")`: elements that are null give "". */
  function JoinElements(xs: seq<Value>): string
  {
    if xs == [] then ""
    else
      var first := if xs[0].Null? then "" else ToText(xs[0]);
      if |xs| == 1 then first else first + "," + JoinElements(xs[1..])
  }

  /** What one item of the output buffer contributes to `__out.join("")`: undefined and null give "". */
  function ItemText(item: Option<Value>): string
  {
    match item
    case None => ""
    case Some(Null) => ""
    case Some(v) => ToText(v)
  }
}
