/**
  The untyped JSON values that the two upstream feeds deliver, and the handful of
  JavaScript coercions the refresh pipeline applies to them: truthiness, loose
  `== null`, `Number(x)`, `String(x)`, property reads and `for ... of` iteration.
 */
module JsValues {
  import opened Wrappers

  /** A JavaScript number: an exact real, or NaN (infinities and -0 are not modelled). */
  datatype Number = Finite(r: real) | NaN

  datatype Value =
    | Undefined
    | Null
    | Bool(b: bool)
    | Num(n: Number)
    | Str(s: string)
    | Arr(items: seq<Value>)
    | Obj(fields: map<string, Value>)

  /** What a property read on `null` or `undefined` throws. */
  datatype Exception = TypeError(property: string)

  /** `v == null` (loose equality): true for null and undefined only. */
  predicate IsNullish(v: Value) {
    v.Undefined? || v.Null?
  }

  /** `typeof v === 'object'`: null, arrays and plain objects. */
  predicate IsObjectType(v: Value) {
    v.Null? || v.Arr? || v.Obj?
  }

  /** JavaScript truthiness: false, 0, NaN, "", null and undefined are falsy. */
  predicate Truthy(v: Value) {
    match v
    case Undefined => false
    case Null => false
    case Bool(b) => b
    case Num(n) => n.Finite? && n.r != 0.0
    case Str(s) => s != ""
    case Arr(_) => true
    case Obj(_) => true
  }

  /** `a || b` */
  function Or(a: Value, b: Value): Value {
    if Truthy(a) then a else b
  }

  /** `Number(x) || 0` */
  function NumberOrZero(n: Number): real {
    if n.Finite? && n.r != 0.0 then n.r else 0.0
  }

  /** Reading `v[key]` from a value that is not null or undefined: own properties of
      plain objects; every other value has none in this model. */
  function Member(v: Value, key: string): Value {
    if v.Obj? && key in v.fields then v.fields[key] else Undefined
  }

  /** `v[key]`, which throws a TypeError when `v` is null or undefined. */
  function GetProp(v: Value, key: string): (r: Result<Value, Exception>)
    ensures r.Failure? <==> IsNullish(v)
    ensures r.Success? ==> r.value == Member(v, key)
  {
    if IsNullish(v) then Failure(TypeError(key)) else Success(Member(v, key))
  }

  /** The elements `for (const x of v)` visits, or None when `v` is not iterable
      (the loop then throws). Strings iterate over their characters. */
  function ForOfItems(v: Value): (r: Option<seq<Value>>)
    ensures r.Some? <==> v.Arr? || v.Str?
    ensures v.Arr? ==> r == Some(v.items)
    ensures v.Str? ==> r.Some? && |r.value| == |v.s|
  {
    match v
    case Arr(items) => Some(items)
    case Str(s) => Some(seq(|s|, i requires 0 <= i < |s| => Str([s[i]])))
    case _ => None
  }

  // ---------------------------------------------------------------- String(x)

  function DigitChar(d: int): char
    requires 0 <= d <= 9
  {
    ('0' as int + d) as char
  }

  predicate IsDigit(c: char) {
    '0' <= c <= '9'
  }

  function NatToString(n: nat): (s: string)
    ensures |s| > 0 && AllDigits(s)
    decreases n
  {
    if n < 10 then [DigitChar(n)]
    else
      var s := NatToString(n / 10) + [DigitChar(n % 10)];
      assert s[..|s| - 1] == NatToString(n / 10);
      s
  }

  /** Number of fraction digits `String(x)` writes at most in this model. */
  const FractionDigits: nat := 20

  function FractionToString(f: real, fuel: nat): string
    requires 0.0 <= f < 1.0
    decreases fuel
  {
    if f == 0.0 || fuel == 0 then ""
    else
      var d := (f * 10.0).Floor;
      [DigitChar(d)] + FractionToString(f * 10.0 - d as real, fuel - 1)
  }

  /** `String(n)` for a number, in positional notation. */
  function NumberToString(n: Number): string {
    match n
    case NaN => "NaN"
    case Finite(x) =>
      var mag := if x < 0.0 then -x else x;
      var whole := mag.Floor;
      var digits := NatToString(whole)
        + (if mag == whole as real then "" else "." + FractionToString(mag - whole as real, FractionDigits));
      if x < 0.0 then "-" + digits else digits
  }

  /** `String(v)`; an array is its elements joined with ",", null and undefined
      elements written as "". */
  function ToStr(v: Value): string
    decreases v, 1
  {
    match v
    case Undefined => "undefined"
    case Null => "null"
    case Bool(b) => if b then "true" else "false"
    case Num(n) => NumberToString(n)
    case Str(s) => s
    case Arr(items) => JoinFrom(v, 0)
    case Obj(_) => "[object Object]"
  }

  function JoinFrom(v: Value, i: nat): string
    requires v.Arr? && i <= |v.items|
    decreases v, 0, |v.items| - i
  {
    if i == |v.items| then ""
    else
      var e := v.items[i];
      (if i == 0 then "" else ",") + (if IsNullish(e) then "" else ToStr(e)) + JoinFrom(v, i + 1)
  }

  // ---------------------------------------------------------------- Number(x)

  predicate IsWhitespace(c: char) {
    c == ' ' || c == '\t' || c == '\n' || c == '\r' || c as int == 11 || c as int == 12
  }

  function TrimStart(s: string): (t: string)
    ensures |t| <= |s|
  {
    if |s| > 0 && IsWhitespace(s[0]) then TrimStart(s[1..]) else s
  }

  function TrimEnd(s: string): (t: string)
    ensures |t| <= |s|
  {
    if |s| > 0 && IsWhitespace(s[|s| - 1]) then TrimEnd(s[..|s| - 1]) else s
  }

  /** `TrimStart` removes a whitespace prefix and leaves no whitespace in front. */
  lemma {:induction false} TrimStartRemovesPrefix(s: string)
    ensures var t := TrimStart(s); t == s[|s| - |t|..] && (t != [] ==> !IsWhitespace(t[0]))
  {
    if |s| > 0 && IsWhitespace(s[0]) {
      TrimStartRemovesPrefix(s[1..]);
    }
  }

  /** `TrimEnd` removes a whitespace suffix and leaves no whitespace at the back. */
  lemma {:induction false} TrimEndRemovesSuffix(s: string)
    ensures var t := TrimEnd(s); t == s[..|t|] && (t != [] ==> !IsWhitespace(t[|t| - 1]))
  {
    if |s| > 0 && IsWhitespace(s[|s| - 1]) {
      TrimEndRemovesSuffix(s[..|s| - 1]);
    }
  }

  /** Every character of `s` is a decimal digit (checked from the back, as `DigitsValue` reads). */
  predicate AllDigits(s: string) {
    s == [] || (IsDigit(s[|s| - 1]) && AllDigits(s[..|s| - 1]))
  }

  /** The value of a string of decimal digits. */
  function DigitsValue(s: string): nat
    requires AllDigits(s)
  {
    if s == [] then 0 else DigitsValue(s[..|s| - 1]) * 10 + (s[|s| - 1] as int - '0' as int)
  }

  /** The value of the digits after a decimal point: `0.d1d2...` as `(d1 + 0.d2...) / 10`. */
  function FractionValue(s: string): real {
    if s == [] then 0.0 else ((s[0] as int - '0' as int) as real + FractionValue(s[1..])) / 10.0
  }

  /** The index of the first '.', or |s| when there is none. */
  function DotIndex(s: string): (i: nat)
    ensures i <= |s|
    ensures i < |s| ==> s[i] == '.'
  {
    if s == [] || s[0] == '.' then 0 else 1 + DotIndex(s[1..])
  }

  /** An unsigned decimal literal: digits, optionally a point and more digits,
      at least one digit in all. */
  function ParseUnsigned(t: string): Number {
    var dot := DotIndex(t);
    var whole := t[..dot];
    var frac := if dot < |t| then t[dot + 1..] else "";
    if AllDigits(whole) && AllDigits(frac) && |whole| + |frac| > 0 then
      Finite(DigitsValue(whole) as real + FractionValue(frac))
    else NaN
  }

  function Negate(n: Number): Number {
    if n.Finite? then Finite(-n.r) else NaN
  }

  /** `Number(s)` for a string: surrounding whitespace is ignored, the empty string
      is 0, otherwise an optionally signed decimal literal or NaN. */
  function StrToNumber(s: string): Number {
    var t := TrimEnd(TrimStart(s));
    if t == "" then Finite(0.0)
    else if t[0] == '-' then Negate(ParseUnsigned(t[1..]))
    else if t[0] == '+' then ParseUnsigned(t[1..])
    else ParseUnsigned(t)
  }

  /** `Number(v)`; arrays and objects go through their string form. */
  function ToNumber(v: Value): Number {
    match v
    case Undefined => NaN
    case Null => Finite(0.0)
    case Bool(b) => Finite(if b then 1.0 else 0.0)
    case Num(n) => n
    case Str(s) => StrToNumber(s)
    case Arr(_) => StrToNumber(ToStr(v))
    case Obj(_) => StrToNumber(ToStr(v))
  }

  // ---------------------------------------------------------------- round trip

  lemma {:induction false} DigitsValueOfNatToString(n: nat)
    ensures AllDigits(NatToString(n)) && DigitsValue(NatToString(n)) == n
  {
    var s := NatToString(n);
    if n >= 10 {
      DigitsValueOfNatToString(n / 10);
      assert s[..|s| - 1] == NatToString(n / 10);
    }
  }

  /** `Number(String(n)) == n` for every non-negative integer. */
  lemma NumberOfStringOfNat(n: nat)
    ensures ToNumber(Str(NumberToString(Finite(n as real)))) == Finite(n as real)
  {
    var s := NatToString(n);
    assert NumberToString(Finite(n as real)) == s;
    DigitsValueOfNatToString(n);
    DigitsEverywhere(s);
    assert TrimStart(s) == s by { assert !IsWhitespace(s[0]); }
    assert TrimEnd(s) == s by { assert !IsWhitespace(s[|s| - 1]); }
    assert DotIndex(s) == |s| by { NoDotInDigits(s); }
    assert s[..|s|] == s;
  }

  lemma {:induction false} DigitsEverywhere(s: string)
    requires AllDigits(s)
    ensures forall i :: 0 <= i < |s| ==> IsDigit(s[i])
  {
    if s != [] {
      DigitsEverywhere(s[..|s| - 1]);
    }
  }

  lemma {:induction false} NoDotInDigits(s: string)
    requires forall i :: 0 <= i < |s| ==> IsDigit(s[i])
    ensures DotIndex(s) == |s|
  {
    if s != [] {
      assert forall i :: 0 <= i < |s| - 1 ==> s[1..][i] == s[i + 1];
      NoDotInDigits(s[1..]);
    }
  }
}
