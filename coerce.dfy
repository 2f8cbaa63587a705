/** `_castToType`: the coercion a `letz` binding applies to the raw value of
    its element, chosen by the type tag after the colon of `name:type`. */
module Coerce {
  import opened JsText
  import opened JsValues

  /** The raw values for which the `boolean` branch calls a string method on
      something that has none, and so throws. */
  predicate CastThrows(v: Value, tag: string)
  {
    ToLower(tag) == "boolean" && !(v.Str? || v.Bool?)
  }

  /** The kind of value each case-folded tag produces: a number or NaN for
      `number`, a boolean for `boolean`, the fixed values for `null` and
      `undefined`, the parsed value or an empty object for `object`, and a
      string for every other tag. */
  predicate FitsTag(t: string, v: Value, r: Value, host: Host)
  {
    if t == "number" then r.Num? || r.NaN?
    else if t == "boolean" then r.Bool?
    else if t == "null" then r == Null
    else if t == "undefined" then r == Undef
    else if t == "object" then r == Obj(map[]) || host.parseJson(ToJsString(v)) == Some(r)
    else r.Str?
  }

  /** `_castToType(value, type)`. The tag is compared after lower-casing. */
  function CastToType(v: Value, tag: string, host: Host): (r: Value)
    requires !CastThrows(v, tag)
    ensures FitsTag(ToLower(tag), v, r, host)
  {
    var t := ToLower(tag);
    if t == "number" then ToNumber(v)
    else if t == "boolean" then
      if v.Bool? then v else Bool(ToLower(v.s) == "true" || v.s == "")
    else if t == "null" then Null
    else if t == "undefined" then Undef
    else if t == "object" then
      match host.parseJson(ToJsString(v))
      case Some(parsed) => parsed
      case None => Obj(map[])
    else Str(ToJsString(v))
  }

  /** The tag is matched without regard to case: `Number`, `NUMBER` and
      `number` coerce alike. */
  lemma CastIgnoresTagCase(v: Value, tag: string, host: Host)
    requires !CastThrows(v, tag)
    ensures !CastThrows(v, ToLower(tag))
    ensures CastToType(v, tag, host) == CastToType(v, ToLower(tag), host)
  {
    LowerIdempotent(tag);
  }

  /** `boolean`: a boolean passes through; a string is true exactly when its
      lower-case form is "true" or it is empty. */
  lemma BooleanCast(v: Value, tag: string, host: Host)
    requires ToLower(tag) == "boolean" && (v.Str? || v.Bool?)
    ensures v.Bool? ==> CastToType(v, tag, host) == v
    ensures v.Str? ==> (CastToType(v, tag, host) == Bool(true) <==> ToLower(v.s) == "true" || v.s == "")
  {
  }

  /** `null` and `undefined` give their fixed value whatever the input. */
  lemma FixedTagsIgnoreInput(v: Value, w: Value, tag: string, host: Host)
    requires ToLower(tag) == "null" || ToLower(tag) == "undefined"
    ensures CastToType(v, tag, host) == CastToType(w, tag, host)
    ensures CastToType(v, tag, host) == if ToLower(tag) == "null" then Null else Undef
  {
  }

  /** `object` never fails: text the JSON parser rejects becomes an empty object. */
  lemma ObjectCastNeverFails(v: Value, tag: string, host: Host)
    requires ToLower(tag) == "object"
    ensures host.parseJson(ToJsString(v)).None? ==> CastToType(v, tag, host) == Obj(map[])
    ensures host.parseJson(ToJsString(v)).Some? ==> CastToType(v, tag, host) == host.parseJson(ToJsString(v)).value
  {
  }

  /** A tag that is none of the five known ones stringifies the input. */
  lemma UnknownTagStringifies(v: Value, tag: string, host: Host)
    requires ToLower(tag) !in {"number", "boolean", "null", "undefined", "object"}
    ensures CastToType(v, tag, host) == Str(ToJsString(v))
  {
  }

  /** Coercing the spelling of an integer with `number` gives the integer. */
  lemma NumberCastRoundTrip(n: int, tag: string, host: Host)
    requires ToLower(tag) == "number"
    ensures CastToType(Str(ToJsString(Num(n))), tag, host) == Num(n)
  {
    NumberRoundTrip(n);
  }

  /** The default tag, `string`, leaves text unchanged. */
  lemma StringCastKeepsText(s: string, host: Host)
    ensures CastToType(Str(s), "string", host) == Str(s)
  {
    assert ToLower("string") == "string" by {
      assert forall k :: 0 <= k < 6 ==> ToLower("string")[k] == "string"[k];
    }
  }
}
