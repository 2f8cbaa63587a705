/** `updateView(p)`: after the state key `p` is written, rewrite the elements
    bound to it. The two builds differ here. The built library formats the
    value, re-resolves nested `getz` paths under `p.` and refreshes every
    `letz` whose name (before its colon) is `p`; the earlier script writes
    the raw value into `getz` and `letz` attributes equal to `p` as a whole. */
module View {
  import opened JsText
  import opened JsValues
  import opened Format
  import opened Attributes
  import opened Dom

  /** Which of the two variants of the library is running. */
  datatype Build = Dist | Script

  // ---------------------------------------------------------------------
  // The built library: three passes over the page

  /** First pass: `[getz="p"]` shows the formatted value. */
  function DistGetzExact(e: Element, p: string, shown: Value): (r: Element)
    ensures r == e.(text := r.text)
  {
    if GetzIs(e.attrs, p) then e.(text := TextOf(shown)) else e
  }

  /** Second pass: a `getz` path under `p.` is resolved again from the state. */
  function DistGetzNested(e: Element, state: map<string, Value>, p: string, host: Host): (r: Element)
    ensures r == e.(text := r.text)
  {
    if GetzUnder(e.attrs, p) then e.(text := TextOf(NestedProperty(state, e.attrs["getz"], host))) else e
  }

  /** Third pass: a `letz` named `p` gets the formatted value in its value,
      or in its text when it has no value. */
  function DistLetz(e: Element, p: string, shown: Value): (r: Element)
    ensures r == e.(value := r.value, text := r.text)
  {
    if LetzNamed(e.attrs, p) then WriteValueOrText(e, shown) else e
  }

  /** What the three passes do to one element. */
  function RefreshDist(e: Element, state: map<string, Value>, p: string, host: Host): (r: Element)
    ensures r.tag == e.tag && r.attrs == e.attrs && r.hasValue == e.hasValue && r.checkbox == e.checkbox
    ensures r.display == e.display && r.classes == e.classes && r.checked == e.checked
  {
    var shown := FormatValue(Lookup(state, p), host);
    DistLetz(DistGetzNested(DistGetzExact(e, p, shown), state, p, host), p, shown)
  }

  function DistView(doc: seq<Element>, state: map<string, Value>, p: string, host: Host): (r: seq<Element>)
    ensures SameShape(doc, r)
  {
    seq(|doc|, k requires 0 <= k < |doc| => RefreshDist(doc[k], state, p, host))
  }

  // ---------------------------------------------------------------------
  // The earlier script: two passes, raw values, whole-attribute matches

  /** `[getz="p"]` gets the raw value as text, then `[letz="p"]` gets it in
      its value, or in its text when it has no value. */
  function RefreshScript(e: Element, state: map<string, Value>, p: string): (r: Element)
    ensures r.tag == e.tag && r.attrs == e.attrs && r.hasValue == e.hasValue && r.checkbox == e.checkbox
    ensures r.display == e.display && r.classes == e.classes && r.checked == e.checked
  {
    var v := Lookup(state, p);
    var e1 := if GetzIs(e.attrs, p) then e.(text := TextOf(v)) else e;
    if LetzIs(e1.attrs, p) then WriteValueOrText(e1, v) else e1
  }

  function ScriptView(doc: seq<Element>, state: map<string, Value>, p: string): (r: seq<Element>)
    ensures SameShape(doc, r)
  {
    seq(|doc|, k requires 0 <= k < |doc| => RefreshScript(doc[k], state, p))
  }

  /** The page after `updateView(p)` in the given build. */
  function RenderView(build: Build, doc: seq<Element>, state: map<string, Value>, p: string, host: Host): (r: seq<Element>)
    ensures SameShape(doc, r)
  {
    match build
    case Dist => DistView(doc, state, p, host)
    case Script => ScriptView(doc, state, p)
  }

  // ---------------------------------------------------------------------
  // The passes as the source runs them, one `forEach` after another

  /** `querySelectorAll('[getz="p"]').forEach(...)`. */
  method ExactPass(doc: seq<Element>, p: string, shown: Value) returns (d: seq<Element>)
    ensures |d| == |doc|
    ensures forall k :: 0 <= k < |d| ==> d[k] == DistGetzExact(doc[k], p, shown)
  {
    d := doc;
    var i := 0;
    while i < |d|
      invariant |d| == |doc| && 0 <= i <= |d|
      invariant forall k :: 0 <= k < i ==> d[k] == DistGetzExact(doc[k], p, shown)
      invariant forall k :: i <= k < |d| ==> d[k] == doc[k]
    {
      if GetzIs(d[i].attrs, p) {
        d := d[i := d[i].(text := TextOf(shown))];
      }
      i := i + 1;
    }
  }

  /** `querySelectorAll('[getz^="p."]').forEach(...)`, each element reading
      its own path with `_getNestedProperty`. */
  method NestedPass(doc: seq<Element>, state: map<string, Value>, p: string, host: Host)
    returns (d: seq<Element>)
    ensures |d| == |doc|
    ensures forall k :: 0 <= k < |d| ==> d[k] == DistGetzNested(doc[k], state, p, host)
  {
    d := doc;
    var i := 0;
    while i < |d|
      invariant |d| == |doc| && 0 <= i <= |d|
      invariant forall k :: 0 <= k < i ==> d[k] == DistGetzNested(doc[k], state, p, host)
      invariant forall k :: i <= k < |d| ==> d[k] == doc[k]
    {
      if GetzUnder(d[i].attrs, p) {
        var nested := GetNestedProperty(state, d[i].attrs["getz"], host);
        d := d[i := d[i].(text := TextOf(nested))];
      }
      i := i + 1;
    }
  }

  /** `querySelectorAll('[letz^="p"]').forEach(...)`, keeping those whose
      name is `p`. */
  method LetzPass(doc: seq<Element>, p: string, shown: Value) returns (d: seq<Element>)
    ensures |d| == |doc|
    ensures forall k :: 0 <= k < |d| ==> d[k] == DistLetz(doc[k], p, shown)
  {
    d := doc;
    var i := 0;
    while i < |d|
      invariant |d| == |doc| && 0 <= i <= |d|
      invariant forall k :: 0 <= k < i ==> d[k] == DistLetz(doc[k], p, shown)
      invariant forall k :: i <= k < |d| ==> d[k] == doc[k]
    {
      if LetzNamed(d[i].attrs, p) {
        d := d[i := WriteValueOrText(d[i], shown)];
      }
      i := i + 1;
    }
  }

  /** `updateView(p)` in the built library: the three passes in order. */
  method ApplyDistView(doc: seq<Element>, state: map<string, Value>, p: string, host: Host)
    returns (d: seq<Element>)
    ensures d == DistView(doc, state, p, host)
  {
    var shown := FormatValue(Lookup(state, p), host);
    var d1 := ExactPass(doc, p, shown);
    var d2 := NestedPass(d1, state, p, host);
    d := LetzPass(d2, p, shown);
    assert forall k :: 0 <= k < |d| ==> d[k] == RefreshDist(doc[k], state, p, host);
  }

  method ApplyScriptView(doc: seq<Element>, state: map<string, Value>, p: string)
    returns (d: seq<Element>)
    ensures d == ScriptView(doc, state, p)
  {
    var v := Lookup(state, p);
    d := doc;
    var i := 0;
    while i < |d|
      invariant |d| == |doc| && 0 <= i <= |d|
      invariant forall k :: 0 <= k < i ==> d[k] == (if GetzIs(doc[k].attrs, p) then doc[k].(text := TextOf(v)) else doc[k])
      invariant forall k :: i <= k < |d| ==> d[k] == doc[k]
    {
      if GetzIs(d[i].attrs, p) {
        d := d[i := d[i].(text := TextOf(v))];
      }
      i := i + 1;
    }
    ghost var afterGetz := d;
    i := 0;
    while i < |d|
      invariant |d| == |doc| && 0 <= i <= |d|
      invariant forall k :: 0 <= k < i ==> d[k] == (if LetzIs(afterGetz[k].attrs, p) then WriteValueOrText(afterGetz[k], v) else afterGetz[k])
      invariant forall k :: i <= k < |d| ==> d[k] == afterGetz[k]
    {
      if LetzIs(d[i].attrs, p) {
        d := d[i := WriteValueOrText(d[i], v)];
      }
      i := i + 1;
    }
    assert forall k :: 0 <= k < |d| ==> d[k] == RefreshScript(doc[k], state, p);
  }

  // ---------------------------------------------------------------------
  // What a refresh does, element by element

  /** The built library: an element bound to `p` in none of the three ways
      is left as it was; a `letz` named `p` receives the formatted value in
      its value, or its text when it has none; a `getz` bound to `p` or to
      a path under `p.` gets its text rewritten unless a `letz` on the same
      element writes the text last; display, classes and checked state are
      never touched. */
  lemma DistRefreshEffect(e: Element, state: map<string, Value>, p: string, host: Host)
    ensures var r := RefreshDist(e, state, p, host);
      && (!GetzIs(e.attrs, p) && !GetzUnder(e.attrs, p) && !LetzNamed(e.attrs, p) ==> r == e)
      && r.display == e.display && r.classes == e.classes && r.checked == e.checked
      && (LetzNamed(e.attrs, p) && e.hasValue ==> r.value == ValuePropOf(FormatValue(Lookup(state, p), host)))
      && (LetzNamed(e.attrs, p) && !e.hasValue ==> r.text == TextOf(FormatValue(Lookup(state, p), host)))
      && (!(LetzNamed(e.attrs, p) && e.hasValue) ==> r.value == e.value)
      && (GetzIs(e.attrs, p) && !(LetzNamed(e.attrs, p) && !e.hasValue) && !GetzUnder(e.attrs, p) ==>
            r.text == TextOf(FormatValue(Lookup(state, p), host)))
      && (GetzUnder(e.attrs, p) && !(LetzNamed(e.attrs, p) && !e.hasValue) ==>
            r.text == TextOf(NestedProperty(state, e.attrs["getz"], host)))
  {
  }

  /** A `getz` element the built library refreshes for `p` shows exactly
      what binding it afresh would show: the nested read of its whole path.
      (`p` must hold no dot: a key with a dot is never reached by a path.) */
  lemma DistGetzShowsFreshRead(e: Element, state: map<string, Value>, p: string, host: Host)
    requires p != [] && '.' !in p
    requires GetzIs(e.attrs, p) || GetzUnder(e.attrs, p)
    requires !LetzNamed(e.attrs, p) || e.hasValue
    ensures RefreshDist(e, state, p, host).text == TextOf(NestedProperty(state, e.attrs["getz"], host))
  {
    if GetzIs(e.attrs, p) {
      SingleKeyPath(state, p, host);
      assert !GetzUnder(e.attrs, p) by {
        assert |p + "."| > |e.attrs["getz"]|;
      }
    }
  }

  /** Refreshing twice with the same state is refreshing once. */
  lemma DistRefreshIdempotent(e: Element, state: map<string, Value>, p: string, host: Host)
    ensures RefreshDist(RefreshDist(e, state, p, host), state, p, host) == RefreshDist(e, state, p, host)
  {
    var shown := FormatValue(Lookup(state, p), host);
    var r := RefreshDist(e, state, p, host);
    var exact, under, named := GetzIs(e.attrs, p), GetzUnder(e.attrs, p), LetzNamed(e.attrs, p);
    assert GetzIs(r.attrs, p) == exact && GetzUnder(r.attrs, p) == under && LetzNamed(r.attrs, p) == named;
    if named && !e.hasValue {
      assert r == e.(text := TextOf(shown));
    } else if under {
      assert r.text == TextOf(NestedProperty(state, e.attrs["getz"], host));
    } else if exact {
      assert r.text == TextOf(shown);
    } else {
      assert r.text == e.text;
    }
  }

  /** The earlier script: an element whose `getz` and `letz` are not `p` as
      a whole is left as it was. In particular `letz="n:number"` is not
      refreshed when `n` is written. */
  lemma ScriptRefreshEffect(e: Element, state: map<string, Value>, p: string)
    ensures var r := RefreshScript(e, state, p);
      && (!GetzIs(e.attrs, p) && !LetzIs(e.attrs, p) ==> r == e)
      && r.display == e.display && r.classes == e.classes && r.checked == e.checked
      && (LetzIs(e.attrs, p) && e.hasValue ==> r.value == ValuePropOf(Lookup(state, p)))
      && (LetzIs(e.attrs, p) && !e.hasValue ==> r.text == TextOf(Lookup(state, p)))
      && (GetzIs(e.attrs, p) && !(LetzIs(e.attrs, p) && !e.hasValue) ==> r.text == TextOf(Lookup(state, p)))
  {
  }

  /** In the earlier script, `getz="p.key"` rendered through
      `updateView("p.key")` reads the flat key "p.key": with only `p`
      holding `{key: text}` it shows nothing, where the built library's
      nested read shows the text. */
  lemma ScriptReadsDottedGetzFlat(e: Element, p: string, key: string, text: string, host: Host)
    requires '.' !in p && '.' !in key
    requires e.attrs == map["getz" := p + "." + key]
    ensures RefreshScript(e, map[p := Obj(map[key := Str(text)])], p + "." + key).text == ""
    ensures TextOf(NestedProperty(map[p := Obj(map[key := Str(text)])], p + "." + key, host)) == text
  {
    var state := map[p := Obj(map[key := Str(text)])];
    assert p + "." + key !in state by { assert |p + "." + key| > |p|; }
    assert !LetzIs(e.attrs, p + "." + key);
    TwoKeyPath(state, p, key, host);
  }

  /** Writing 5 under `count`, the built library shows "5" in an input
      bound with `letz="count:number"`. */
  lemma CountShownInInput(input: Element, state: map<string, Value>, host: Host)
    requires input.attrs == map["letz" := "count:number"] && input.hasValue
    ensures RefreshDist(input, state["count" := Num(5)], "count", host).value == "5"
  {
    TypedLetzRefreshed();
    DistRefreshEffect(input, state["count" := Num(5)], "count", host);
    assert Lookup(state["count" := Num(5)], "count") == Num(5);
    assert NatToString(5) == "5";
  }

  /** ... and in a `getz="count"` display. */
  lemma CountShownInDisplay(display: Element, state: map<string, Value>, host: Host)
    requires display.attrs == map["getz" := "count"]
    ensures RefreshDist(display, state["count" := Num(5)], "count", host).text == "5"
  {
    assert !GetzUnder(display.attrs, "count") by {
      assert |"count" + "."| > |"count"|;
    }
    assert !LetzNamed(display.attrs, "count");
    DistRefreshEffect(display, state["count" := Num(5)], "count", host);
    assert Lookup(state["count" := Num(5)], "count") == Num(5);
    assert NatToString(5) == "5";
  }
}
