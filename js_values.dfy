/**
 * The JavaScript values the server endpoints read out of parsed JSON (a
 * language model's reply, a request body): `undefined` for an absent
 * property, `null`, booleans, numbers, strings, arrays and plain objects,
 * with the coercions the endpoints apply to them — truthiness, `String(v)`
 * and `Number(v)`. Numbers in these values are integers.
 */
module JsValues {
  import opened JsText
  import opened JsNumber

  datatype Value =
    | Undefined
    | Null
    | Bool(b: bool)
    | Num(n: int)
    | Str(s: string)
    | Arr(items: seq<Value>)
    | Obj(props: map<string, Value>)

  /** JavaScript truthiness: `undefined`, `null`, `false`, `0` and `""` are
      falsy, everything else (every array and object included) is truthy. */
  predicate Truthy(v: Value) {
    match v
    case Undefined => false
    case Null => false
    case Bool(b) => b
    case Num(n) => n != 0
    case Str(s) => s != ""
    case Arr(_) => true
    case Obj(_) => true
  }

  /** `v == null`: loose equality with `null` holds for `null` and
      `undefined` only. */
  predicate IsNullish(v: Value) {
    v.Undefined? || v.Null?
  }

  /** `typeof v === 'object'` for a truthy `v`: arrays and objects. */
  predicate IsObject(v: Value) {
    v.Arr? || v.Obj?
  }

  /** `a || b`. */
  function Or(a: Value, b: Value): (r: Value)
    ensures Truthy(a) ==> r == a
    ensures !Truthy(a) ==> r == b
  {
    if Truthy(a) then a else b
  }

  /** The property `key` of a plain object, `undefined` when it has none;
      arrays, strings and the other values have none of the properties the
      endpoints read. */
  function Field(v: Value, key: string): (r: Value)
    ensures !v.Obj? ==> r == Undefined
    ensures v.Obj? && key in v.props ==> r == v.props[key]
  {
    if v.Obj? && key in v.props then v.props[key] else Undefined
  }

  /** `String(v)`. An array is joined with `,`, its `null` and `undefined`
      entries written as empty strings. */
  function JsString(v: Value): string
    decreases v
  {
    match v
    case Undefined => "undefined"
    case Null => "null"
    case Bool(b) => if b then "true" else "false"
    case Num(n) => IntToString(n)
    case Str(s) => s
    case Arr(items) =>
      Join(seq(|items|, i requires 0 <= i < |items| =>
        if IsNullish(items[i]) then "" else JsString(items[i])), ',')
    case Obj(_) => "[object Object]"
  }

  /** `String(v || fallback)`. */
  function StringOr(v: Value, fallback: string): (r: string)
    ensures !Truthy(v) ==> r == fallback
    ensures v.Str? && v.s != "" ==> r == v.s
  {
    if Truthy(v) then JsString(v) else fallback
  }

  /** Optional sign and decimal digits, as `Number` reads them. */
  predicate IsIntegerLiteral(s: string) {
    (s != [] && AllDigits(s)) ||
    (|s| > 1 && (s[0] == '+' || s[0] == '-') && AllDigits(s[1..]))
  }

  function IntegerLiteralValue(s: string): int
    requires IsIntegerLiteral(s)
  {
    if AllDigits(s) then DigitsValue(s)
    else if s[0] == '-' then -(DigitsValue(s[1..]) as int)
    else DigitsValue(s[1..])
  }

  /** `Number(s)` for a string: white space around the text is ignored, the
      empty string is 0, an integer literal its value, `Infinity` with an
      optional sign an infinity, anything else NaN. */
  function StringToNumber(s: string): (r: Number)
    ensures Trim(s) == "" ==> r == Int(0)
  {
    var t := Trim(s);
    if t == "" then Int(0)
    else if t == "Infinity" || t == "+Infinity" then PosInf
    else if t == "-Infinity" then NegInf
    else if IsIntegerLiteral(t) then Int(IntegerLiteralValue(t))
    else NaN
  }

  /** `Number(v)`. An array goes through its string form, as JavaScript
      does. */
  function ToNumber(v: Value): (r: Number)
    ensures v.Num? ==> r == Int(v.n)
    ensures v.Null? ==> r == Int(0)
    ensures v.Undefined? || v.Obj? ==> r == NaN
  {
    match v
    case Undefined => NaN
    case Null => Int(0)
    case Bool(b) => if b then Int(1) else Int(0)
    case Num(n) => Int(n)
    case Str(s) => StringToNumber(s)
    case Arr(_) => StringToNumber(JsString(v))
    case Obj(_) => NaN
  }

  /** `String(n)` has no white space at either end. */
  lemma IntToStringTrimmed(n: int)
    ensures Trim(IntToString(n)) == IntToString(n)
  {
    var s := IntToString(n);
    var d := NatToString(if n < 0 then -n else n);
    DigitsEnds(d);
    assert s[|s| - 1] == d[|d| - 1];
    TrimNoSpace(s);
  }

  /** A trimmed integer literal reads as its value: it ends in a digit, so
      it is none of the spellings of `Infinity`. */
  lemma IntegerLiteralNumber(t: string)
    requires IsIntegerLiteral(t) && Trim(t) == t
    ensures StringToNumber(t) == Int(IntegerLiteralValue(t))
  {
    if AllDigits(t) {
      DigitsEnds(t);
    } else {
      DigitsEnds(t[1..]);
      assert t[|t| - 1] == t[1..][|t| - 2];
    }
  }

  /** `Number(String(n))` is `n`: the two coercions are inverse on
      integers. */
  lemma NumberOfString(n: int)
    ensures ToNumber(Str(IntToString(n))) == Int(n)
    ensures ToNumber(Str(JsString(Num(n)))) == Int(n)
  {
    IntToStringTrimmed(n);
    if n < 0 {
      NegativeLiteral(-n);
    } else {
      NatToStringValue(n);
    }
    IntegerLiteralNumber(IntToString(n));
  }

  lemma NegativeLiteral(n: nat)
    requires n > 0
    ensures IsIntegerLiteral("-" + NatToString(n))
    ensures IntegerLiteralValue("-" + NatToString(n)) == -(n as int)
  {
    var s := "-" + NatToString(n);
    NatToStringValue(n);
    assert s[1..] == NatToString(n);
    assert !AllDigits(s) by {
      if AllDigits(s) {
        DigitsEnds(s);
      }
    }
  }

  /** A one-element array reads as its element's number. */
  lemma SingletonArrayNumber(n: int)
    ensures ToNumber(Arr([Num(n)])) == Int(n)
  {
    var pieces := seq(1, i requires 0 <= i < 1 => if IsNullish([Num(n)][i]) then "" else JsString([Num(n)][i]));
    assert pieces == [IntToString(n)];
    assert JsString(Arr([Num(n)])) == IntToString(n);
    NumberOfString(n);
  }
}
