/** The page as the binder sees it: a sequence of element records in
    document order, the lookup `document.querySelector` performs on it, and
    the conversions the DOM applies when the binder assigns `textContent`,
    `value`, `style.display` and `classList`. */
module Dom {
  import opened JsText
  import opened JsValues

  /** One element. `hasValue` says whether it has a `value` property at all
      (`el.value !== undefined`); `checkbox` whether `el.type` is
      "checkbox"; `display` is the inline `style.display`; `tag` is the
      upper-case `tagName`. */
  datatype Element = Element(
    tag: string,
    attrs: map<string, string>,
    hasValue: bool,
    value: string,
    text: string,
    checkbox: bool,
    checked: bool,
    display: string,
    classes: set<string>)

  /** What `el.textContent = v` stores: null and undefined clear the text,
      every other value is converted with `String`. */
  function TextOf(v: Value): string
  {
    if Nullish(v) then "" else ToJsString(v)
  }

  /** What `el.value = v` stores, as the setter of `input` and `textarea`
      does it: null clears the value, every other value, undefined
      included, is converted with `String`. */
  function ValuePropOf(v: Value): string
  {
    if v.Null? then "" else ToJsString(v)
  }

  /** Reading `el.value`: the text of the value property, or undefined for
      an element without one. */
  function ValueOf(e: Element): (r: Value)
    ensures r.Str? || r.Undef?
    ensures r.Undef? <==> !e.hasValue
    ensures r.Str? ==> r.s == e.value
  {
    if e.hasValue then Str(e.value) else Undef
  }

  /** `if (el.value !== undefined) el.value = v; else el.textContent = v;`:
      an element with a value property changes only that property, and
      reading it back gives what the setter stored; any other element
      changes only its text. */
  function WriteValueOrText(e: Element, v: Value): (r: Element)
    ensures r.hasValue == e.hasValue
    ensures e.hasValue ==> r == e.(value := r.value) && ValueOf(r) == Str(ValuePropOf(v))
    ensures !e.hasValue ==> r == e.(text := r.text) && r.text == TextOf(v) && ValueOf(r) == Undef
  {
    if e.hasValue then e.(value := ValuePropOf(v)) else e.(text := TextOf(v))
  }

  // ---------------------------------------------------------------------
  // Selectors

  /** A character CSS allows in an identifier without escaping: an ASCII
      letter or digit, `-`, `_`, or any character beyond ASCII. */
  predicate IdentChar(c: char)
  {
    ('a' <= c <= 'z') || ('A' <= c <= 'Z') || IsDigit(c) || c == '-' || c == '_' || c >= '\U{0080}'
  }

  /** A CSS identifier made of identifier characters that does not start
      with a digit, nor with `-` and a digit; the browser rejects a selector
      such as `#1a` or `.2col`. */
  predicate IsIdent(s: string)
  {
    && s != []
    && (forall k :: 0 <= k < |s| ==> IdentChar(s[k]))
    && !IsDigit(s[0])
    && !(s[0] == '-' && (|s| == 1 || IsDigit(s[1])))
  }

  /** The selectors the model understands: `#id`, `.class` and a bare tag
      name. Anything else matches no element. */
  predicate Matches(e: Element, sel: string)
  {
    if StartsWith(sel, "#") then IsIdent(sel[1..]) && "id" in e.attrs && e.attrs["id"] == sel[1..]
    else if StartsWith(sel, ".") then IsIdent(sel[1..]) && sel[1..] in e.classes
    else IsIdent(sel) && ToUpper(sel) == e.tag
  }

  /** The first element at or after `from` that the selector matches. */
  function FindFrom(doc: seq<Element>, sel: string, from: nat): (r: Option<nat>)
    requires from <= |doc|
    ensures r.Some? ==> from <= r.value < |doc| && Matches(doc[r.value], sel)
    ensures r.Some? ==> forall k :: from <= k < r.value ==> !Matches(doc[k], sel)
    ensures r.None? ==> forall k :: from <= k < |doc| ==> !Matches(doc[k], sel)
    decreases |doc| - from
  {
    if from == |doc| then None
    else if Matches(doc[from], sel) then Some(from)
    else FindFrom(doc, sel, from + 1)
  }

  /** `document.querySelector(sel)`: the first matching element in document
      order, or nothing. */
  function QuerySelector(doc: seq<Element>, sel: string): (r: Option<nat>)
    ensures r.Some? ==> r.value < |doc| && Matches(doc[r.value], sel)
    ensures r.Some? ==> forall k :: 0 <= k < r.value ==> !Matches(doc[k], sel)
    ensures r.None? ==> forall k :: 0 <= k < |doc| ==> !Matches(doc[k], sel)
  {
    FindFrom(doc, sel, 0)
  }

  // ---------------------------------------------------------------------
  // Display

  /** `togglez`: "none" becomes "", anything else becomes "none". */
  function ToggledDisplay(d: string): string
  {
    if d == "none" then "" else "none"
  }

  /** Toggling twice restores the display exactly when it was "" or "none";
      any other inline display comes back as "". */
  lemma ToggleTwice(d: string)
    ensures ToggledDisplay(ToggledDisplay(d)) == d <==> d == "" || d == "none"
    ensures ToggledDisplay(ToggledDisplay(d)) == if d == "none" then "none" else ""
  {
  }

  // ---------------------------------------------------------------------
  // Class lists

  predicate AsciiSpace(c: char)
  {
    c == ' ' || c == '\t' || c == '\n' || c == '\U{C}' || c == '\r'
  }

  /** A token `classList` accepts; for the empty string or a token holding
      white space, `add`, `remove` and `toggle` throw and change nothing. */
  predicate ValidToken(c: string)
  {
    c != [] && forall k :: 0 <= k < |c| ==> !AsciiSpace(c[k])
  }

  /** `classList.add(c)`. */
  function AddClass(cs: set<string>, c: string): set<string>
  {
    if ValidToken(c) then cs + {c} else cs
  }

  /** `classList.remove(c)`. */
  function RemoveClass(cs: set<string>, c: string): set<string>
  {
    if ValidToken(c) then cs - {c} else cs
  }

  /** `classList.toggle(c)`. */
  function ToggleClass(cs: set<string>, c: string): set<string>
  {
    if !ValidToken(c) then cs else if c in cs then cs - {c} else cs + {c}
  }

  /** `hoverz`: after entering the class is present and after leaving it is
      absent, whether or not it was there at first; no other class moves. */
  lemma HoverClass(cs: set<string>, c: string)
    requires ValidToken(c)
    ensures c in AddClass(cs, c) && c !in RemoveClass(cs, c)
    ensures RemoveClass(AddClass(cs, c), c) == RemoveClass(cs, c) == cs - {c}
    ensures forall x :: x != c ==> (x in AddClass(cs, c) <==> x in cs) && (x in RemoveClass(cs, c) <==> x in cs)
  {
  }

  /** `togglez-class` twice leaves the class list as it was. */
  lemma ToggleClassTwice(cs: set<string>, c: string)
    ensures ToggleClass(ToggleClass(cs, c), c) == cs
  {
  }

  // ---------------------------------------------------------------------
  // What the binder never changes

  /** Two pages with the same elements, attributes and kinds of control: the
      binder writes only text, values, display and classes. */
  predicate SameShape(d1: seq<Element>, d2: seq<Element>)
  {
    && |d1| == |d2|
    && forall k :: 0 <= k < |d1| ==>
         && d1[k].tag == d2[k].tag && d1[k].attrs == d2[k].attrs
         && d1[k].hasValue == d2[k].hasValue && d1[k].checkbox == d2[k].checkbox
  }

  lemma SameShapeTransitive(d1: seq<Element>, d2: seq<Element>, d3: seq<Element>)
    requires SameShape(d1, d2) && SameShape(d2, d3)
    ensures SameShape(d1, d3)
  {
  }
}
