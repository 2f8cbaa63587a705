/** The values the binder stores in its state and writes into the page, and
    the JavaScript conversions it applies to them: `String(v)`, `Number(v)`
    and property access `v[key]`. */
module JsValues {
  import opened JsText

  /** A JavaScript value as the binder meets it. Numbers are integers, with
      NaN apart; an object is a map from property names to values. */
  datatype Value =
    | Str(s: string)
    | Num(n: int)
    | NaN
    | Bool(b: bool)
    | Null
    | Undef
    | Obj(fields: map<string, Value>)

  predicate Nullish(v: Value) { v.Null? || v.Undef? }

  /** The facilities of the host the binder calls but does not define:
      `JSON.parse` (None when it throws), `JSON.stringify(v, null, 2)`, and
      evaluating `return <expression>` as a function whose parameters are the
      state's keys, applied to the state's values (None when it throws). */
  datatype Host = Host(
    parseJson: string -> Option<Value>,
    stringifyJson: Value -> string,
    evaluate: (string, map<string, Value>) -> Option<Value>)

  /** `String(v)`. */
  function ToJsString(v: Value): string
  {
    match v
    case Str(s) => s
    case Num(n) => IntToString(n)
    case NaN => "NaN"
    case Bool(b) => if b then "true" else "false"
    case Null => "null"
    case Undef => "undefined"
    case Obj(_) => "[object Object]"
  }

  /** `Number(s)` for a string: surrounding white space is ignored, an
      empty string is 0, a signed run of decimal digits is that integer, and
      anything else is NaN. */
  function StringToNumber(s: string): (r: Value)
    ensures r.Num? || r.NaN?
    ensures Trim(s) == [] ==> r == Num(0)
  {
    var t := Trim(s);
    if t == [] then Num(0)
    else if t[0] == '-' && |t| > 1 && AllDigits(t[1..]) then Num(-(DigitsValue(t[1..]) as int))
    else if t[0] == '+' && |t| > 1 && AllDigits(t[1..]) then Num(DigitsValue(t[1..]))
    else if AllDigits(t) then Num(DigitsValue(t))
    else NaN
  }

  /** `Number(v)`: always a number, possibly NaN. */
  function ToNumber(v: Value): (r: Value)
    ensures r.Num? || r.NaN?
  {
    match v
    case Str(s) => StringToNumber(s)
    case Num(_) => v
    case NaN => NaN
    case Bool(b) => Num(if b then 1 else 0)
    case Null => Num(0)
    case Undef => NaN
    case Obj(_) => StringToNumber(ToJsString(v))
  }

  /** Spelling an integer and reading it back as a number gives the integer. */
  lemma {:induction false} NumberRoundTrip(n: int)
    ensures StringToNumber(ToJsString(Num(n))) == Num(n)
  {
    var s := ToJsString(Num(n));
    var digits := NatToString(if n < 0 then -n else n);
    DigitsRoundTrip(if n < 0 then -n else n);
    assert !IsJsSpace(digits[|digits| - 1]);
    if n < 0 {
      assert s == "-" + digits && s[1..] == digits;
      assert s[|s| - 1] == digits[|digits| - 1];
      TrimLeavesUnpadded(s);
    } else {
      assert s == digits;
      TrimLeavesUnpadded(s);
    }
  }

  /** A string that neither starts nor ends with white space is its own trim. */
  lemma TrimLeavesUnpadded(s: string)
    requires s != [] && !IsJsSpace(s[0]) && !IsJsSpace(s[|s| - 1])
    ensures Trim(s) == s
  {
    assert TrimStart(s) == s;
  }

  /** `v[key]` for a value that is neither null nor undefined: an own
      property of an object, a string's `length` or one of its characters,
      and undefined for everything else. */
  function Property(v: Value, key: string): Value
  {
    match v
    case Obj(m) => if key in m then m[key] else Undef
    case Str(s) =>
      if key == "length" then Num(|s|)
      else if IsIndexKey(key) && DigitsValue(key) < |s| then Str([s[DigitsValue(key)]])
      else Undef
    case _ => Undef
  }
}
