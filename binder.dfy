/** The `GenZ` object: its state store, whose every write runs
    `updateView`, the startup bindings of `letz` and `getz` elements, and
    the event handlers the other attributes install. The page after each
    handler is specified by a function on a `BinderState` snapshot; the class
    methods update the fields in place and are proved to agree with those
    functions. */
module Binder {
  import opened JsText
  import opened JsValues
  import opened Coerce
  import opened Format
  import opened Attributes
  import opened Dom
  import opened View

  /** An `input` listener installed by a `getz` that names another element:
      each input on `source` copies its value into the text of `target`. */
  datatype Mirror = Mirror(source: nat, target: nat)

  /** `form.reset()` and `form.submit()` calls, recorded in order. */
  datatype FormAction = Reset(form: nat) | Submit(form: nat)

  /** Everything the binder can change: the state, the page, the keys
      `updateView` was called with, the mirror listeners and the form calls. */
  datatype BinderState = BinderState(
    state: map<string, Value>,
    doc: seq<Element>,
    updates: seq<string>,
    mirrors: seq<Mirror>,
    forms: seq<FormAction>)

  /** Every mirror listener connects two elements of the page. */
  predicate StateOk(pg: BinderState)
  {
    forall m :: m in pg.mirrors ==> m.source < |pg.doc| && m.target < |pg.doc|
  }

  // ---------------------------------------------------------------------
  // The state store

  /** The Proxy `set` trap: store the value, then `updateView(key)`. */
  function Write(build: Build, host: Host, pg: BinderState, key: string, v: Value): (r: BinderState)
    ensures SameShape(pg.doc, r.doc) && r.mirrors == pg.mirrors && r.forms == pg.forms
  {
    var state := pg.state[key := v];
    pg.(state := state, doc := RenderView(build, pg.doc, state, key, host), updates := pg.updates + [key])
  }

  /** A write stores the value under its key, leaves every other key as it
      was, and runs exactly one `updateView`, for that key, whether or not
      the value changed. */
  lemma WriteStoresOnlyKey(build: Build, host: Host, pg: BinderState, key: string, v: Value)
    ensures Lookup(Write(build, host, pg, key, v).state, key) == v
    ensures forall k :: k != key ==> Lookup(Write(build, host, pg, key, v).state, k) == Lookup(pg.state, k)
    ensures Write(build, host, pg, key, v).updates == pg.updates + [key]
    ensures Write(build, host, pg, key, v).doc == RenderView(build, pg.doc, pg.state[key := v], key, host)
  {
  }

  /** After a write, an element bound with `getz="key"` (and no `letz`)
      shows the new value: formatted in the built library, as it is in the
      earlier script. */
  lemma WriteShowsInGetz(build: Build, host: Host, pg: BinderState, key: string, v: Value, k: nat)
    requires k < |pg.doc| && GetzIs(pg.doc[k].attrs, key) && "letz" !in pg.doc[k].attrs
    ensures Write(build, host, pg, key, v).doc[k].text == TextOf(if build == Dist then FormatValue(v, host) else v)
  {
    var e := pg.doc[k];
    var state := pg.state[key := v];
    assert Lookup(state, key) == v;
    assert !GetzUnder(e.attrs, key) by {
      assert |key + "."| > |e.attrs["getz"]|;
    }
    if build == Dist {
      DistRefreshEffect(e, state, key, host);
    } else {
      ScriptRefreshEffect(e, state, key);
    }
  }

  /** What `_evaluateExpression` returns: the evaluator's value, or
      undefined when evaluation throws. */
  function Evaluate(host: Host, expression: string, state: map<string, Value>): Value
  {
    match host.evaluate(expression, state)
    case Some(v) => v
    case None => Undef
  }

  // ---------------------------------------------------------------------
  // Binding `letz` at startup

  /** The value a `letz` element starts from: `checked` for a checkbox,
      otherwise its value, or its text when the value is empty or absent. */
  function InitialValue(e: Element): (v: Value)
    ensures v.Str? || v.Bool?
    ensures e.checkbox ==> v == Bool(e.checked)
    ensures !e.checkbox && e.hasValue && e.value != "" ==> v == Str(e.value)
    ensures !e.checkbox && !(e.hasValue && e.value != "") ==> v == Str(e.text)
  {
    if e.checkbox then Bool(e.checked)
    else if e.hasValue && e.value != "" then Str(e.value)
    else Str(e.text)
  }

  /** Binding one `letz` element: write its coerced initial value, then hide
      it when it also carries `hidez`. An element without `letz` is left
      alone; otherwise exactly its name is written, once. */
  function LetzStep(build: Build, host: Host, pg: BinderState, k: nat): (r: BinderState)
    requires k < |pg.doc|
    ensures SameShape(pg.doc, r.doc) && r.mirrors == pg.mirrors && r.forms == pg.forms
    ensures "letz" !in pg.doc[k].attrs ==> r == pg
    ensures "letz" in pg.doc[k].attrs ==>
      var binding := ParseLetz(pg.doc[k].attrs["letz"]);
      r.updates == pg.updates + [binding.first] && r.state.Keys == pg.state.Keys + {binding.first}
  {
    var e := pg.doc[k];
    if "letz" !in e.attrs then pg
    else
      var binding := ParseLetz(e.attrs["letz"]);
      var w := Write(build, host, pg, binding.first, CastToType(InitialValue(e), binding.second, host));
      if "hidez" in e.attrs then w.(doc := w.doc[k := w.doc[k].(display := "none")]) else w
  }

  /** The names of the `letz` elements among the first `n`, in order. */
  function LetzNames(doc: seq<Element>, n: nat): seq<string>
    requires n <= |doc|
  {
    if n == 0 then []
    else LetzNames(doc, n - 1) + (if "letz" in doc[n - 1].attrs then [ParseLetz(doc[n - 1].attrs["letz"]).first] else [])
  }

  /** `bindLetzEvents` over the first `n` elements, in document order. */
  function BindLetzUpTo(build: Build, host: Host, pg: BinderState, n: nat): (r: BinderState)
    requires n <= |pg.doc|
    ensures SameShape(pg.doc, r.doc) && r.mirrors == pg.mirrors && r.forms == pg.forms
  {
    if n == 0 then pg
    else
      var before := BindLetzUpTo(build, host, pg, n - 1);
      var r := LetzStep(build, host, before, n - 1);
      SameShapeTransitive(pg.doc, before.doc, r.doc);
      r
  }

  /** Binding `letz` elements runs one `updateView` per element, for its
      name, in document order; afterwards the state holds exactly the keys
      it held before plus every bound name, and each name holds the coerced
      initial value of the last element that binds it. */
  lemma BindLetzWritesEachName(build: Build, host: Host, pg: BinderState, n: nat)
    requires n <= |pg.doc|
    ensures BindLetzUpTo(build, host, pg, n).updates == pg.updates + LetzNames(pg.doc, n)
    ensures forall x :: x in BindLetzUpTo(build, host, pg, n).state <==> x in pg.state || x in LetzNames(pg.doc, n)
    ensures forall j: nat :: j < n && LastLetz(pg.doc, j, n) ==>
      var binding := ParseLetz(pg.doc[j].attrs["letz"]);
      Lookup(BindLetzUpTo(build, host, pg, n).state, binding.first)
        == CastToType(InitialValue(BindLetzUpTo(build, host, pg, j).doc[j]), binding.second, host)
  {
    BindLetzLog(build, host, pg, n);
    BindLetzKeys(build, host, pg, n);
    forall j: nat | j < n && LastLetz(pg.doc, j, n)
      ensures
        var binding := ParseLetz(pg.doc[j].attrs["letz"]);
        Lookup(BindLetzUpTo(build, host, pg, n).state, binding.first)
          == CastToType(InitialValue(BindLetzUpTo(build, host, pg, j).doc[j]), binding.second, host)
    {
      BindLetzValues(build, host, pg, n, j);
    }
  }

  /** The log half of `BindLetzWritesEachName`, by induction. */
  lemma {:induction false} BindLetzLog(build: Build, host: Host, pg: BinderState, n: nat)
    requires n <= |pg.doc|
    ensures BindLetzUpTo(build, host, pg, n).updates == pg.updates + LetzNames(pg.doc, n)
  {
    if n > 0 {
      BindLetzLog(build, host, pg, n - 1);
      BindLetzStepLog(build, host, pg, n);
      var names := if "letz" in pg.doc[n - 1].attrs then [ParseLetz(pg.doc[n - 1].attrs["letz"]).first] else [];
      AppendAssociates(pg.updates, LetzNames(pg.doc, n - 1), names);
    }
  }

  lemma AppendAssociates(a: seq<string>, b: seq<string>, c: seq<string>)
    ensures a + b + c == a + (b + c)
  {
  }

  /** The keys half of `BindLetzWritesEachName`, by induction. */
  lemma {:induction false} BindLetzKeys(build: Build, host: Host, pg: BinderState, n: nat)
    requires n <= |pg.doc|
    ensures forall x :: x in BindLetzUpTo(build, host, pg, n).state <==> x in pg.state || x in LetzNames(pg.doc, n)
  {
    if n > 0 {
      BindLetzKeys(build, host, pg, n - 1);
      BindLetzStepLog(build, host, pg, n);
      var names := if "letz" in pg.doc[n - 1].attrs then [ParseLetz(pg.doc[n - 1].attrs["letz"]).first] else [];
      assert LetzNames(pg.doc, n) == LetzNames(pg.doc, n - 1) + names;
    }
  }

  /** Element `n - 1` adds its name, if it has one, to the log and to the
      keys of the state. */
  lemma BindLetzStepLog(build: Build, host: Host, pg: BinderState, n: nat)
    requires 0 < n <= |pg.doc|
    ensures
      var names := if "letz" in pg.doc[n - 1].attrs then [ParseLetz(pg.doc[n - 1].attrs["letz"]).first] else [];
      && BindLetzUpTo(build, host, pg, n).updates == BindLetzUpTo(build, host, pg, n - 1).updates + names
      && forall x :: x in BindLetzUpTo(build, host, pg, n).state <==> x in BindLetzUpTo(build, host, pg, n - 1).state || x in names
  {
    BindLetzUnfold(build, host, pg, n);
  }

  /** Some element among those at `from` up to (not including) `to` binds
      `name` with `letz`. */
  predicate BoundBetween(doc: seq<Element>, name: string, from: nat, to: nat)
    requires to <= |doc|
  {
    && from < to
    && (|| BoundBetween(doc, name, from, to - 1)
        || ("letz" in doc[to - 1].attrs && ParseLetz(doc[to - 1].attrs["letz"]).first == name))
  }

  /** Element `j` carries the last `letz` among the first `n` elements
      that binds its name. */
  predicate LastLetz(doc: seq<Element>, j: nat, n: nat)
    requires j < n <= |doc|
  {
    "letz" in doc[j].attrs && !BoundBetween(doc, ParseLetz(doc[j].attrs["letz"]).first, j + 1, n)
  }

  /** After binding the first `n` elements, a name holds the coerced initial
      value of the last `letz` element that binds it, read from that element
      as earlier bindings left it. */
  lemma BindLetzValues(build: Build, host: Host, pg: BinderState, n: nat, j: nat)
    requires j < n <= |pg.doc| && LastLetz(pg.doc, j, n)
    ensures
      var binding := ParseLetz(pg.doc[j].attrs["letz"]);
      Lookup(BindLetzUpTo(build, host, pg, n).state, binding.first)
        == CastToType(InitialValue(BindLetzUpTo(build, host, pg, j).doc[j]), binding.second, host)
  {
    BindLetzKeepsLast(build, host, pg, n, j);
    BindLetzUnfold(build, host, pg, j + 1);
    LetzStepStores(build, host, BindLetzUpTo(build, host, pg, j), j);
  }

  /** The later elements of `bindLetzEvents` leave the value of a name as
      its last `letz` element stored it. */
  lemma BindLetzKeepsLast(build: Build, host: Host, pg: BinderState, n: nat, j: nat)
    requires j < n <= |pg.doc| && LastLetz(pg.doc, j, n)
    ensures
      var name := ParseLetz(pg.doc[j].attrs["letz"]).first;
      Lookup(BindLetzUpTo(build, host, pg, n).state, name) == Lookup(BindLetzUpTo(build, host, pg, j + 1).state, name)
  {
    BindLetzKeepsFrom(build, host, pg, j + 1, n, ParseLetz(pg.doc[j].attrs["letz"]).first);
  }

  /** Elements `start .. n`, none of which binds `name`, leave its value. */
  lemma {:induction false} BindLetzKeepsFrom(build: Build, host: Host, pg: BinderState, start: nat, n: nat, name: string)
    requires start <= n <= |pg.doc| && !BoundBetween(pg.doc, name, start, n)
    ensures Lookup(BindLetzUpTo(build, host, pg, n).state, name) == Lookup(BindLetzUpTo(build, host, pg, start).state, name)
  {
    if n != start {
      NotBoundShrinks(pg.doc, name, start, n);
      BindLetzKeepsFrom(build, host, pg, start, n - 1, name);
      BindLetzStepKeeps(build, host, pg, n, name);
    }
  }

  /** When no element in `from .. to` binds `name`, neither does the last
      of them nor any before it. */
  lemma NotBoundShrinks(doc: seq<Element>, name: string, from: nat, to: nat)
    requires from < to <= |doc| && !BoundBetween(doc, name, from, to)
    ensures !BoundBetween(doc, name, from, to - 1)
    ensures "letz" in doc[to - 1].attrs ==> ParseLetz(doc[to - 1].attrs["letz"]).first != name
  {
  }

  /** Element `n - 1` leaves alone every name it does not bind. */
  lemma BindLetzStepKeeps(build: Build, host: Host, pg: BinderState, n: nat, name: string)
    requires 0 < n <= |pg.doc|
    requires "letz" in pg.doc[n - 1].attrs ==> ParseLetz(pg.doc[n - 1].attrs["letz"]).first != name
    ensures Lookup(BindLetzUpTo(build, host, pg, n).state, name) == Lookup(BindLetzUpTo(build, host, pg, n - 1).state, name)
  {
    BindLetzUnfold(build, host, pg, n);
    LetzStepKeepsOthers(build, host, BindLetzUpTo(build, host, pg, n - 1), n - 1, name);
  }

  /** One more element of `bindLetzEvents` is one more `letz` step. */
  lemma BindLetzUnfold(build: Build, host: Host, pg: BinderState, n: nat)
    requires 0 < n <= |pg.doc|
    ensures BindLetzUpTo(build, host, pg, n) == LetzStep(build, host, BindLetzUpTo(build, host, pg, n - 1), n - 1)
    ensures BindLetzUpTo(build, host, pg, n - 1).doc[n - 1].attrs == pg.doc[n - 1].attrs
  {
  }

  /** A `letz` step leaves the value of every other name as it was. */
  lemma LetzStepKeepsOthers(build: Build, host: Host, pg: BinderState, k: nat, name: string)
    requires k < |pg.doc|
    requires "letz" in pg.doc[k].attrs ==> ParseLetz(pg.doc[k].attrs["letz"]).first != name
    ensures Lookup(LetzStep(build, host, pg, k).state, name) == Lookup(pg.state, name)
  {
    if "letz" in pg.doc[k].attrs {
      var binding := ParseLetz(pg.doc[k].attrs["letz"]);
      WriteStoresOnlyKey(build, host, pg, binding.first, CastToType(InitialValue(pg.doc[k]), binding.second, host));
    }
  }

  /** A `letz` step stores the coerced initial value under its name, and
      hides the element when it also carries `hidez`. */
  lemma LetzStepStores(build: Build, host: Host, pg: BinderState, k: nat)
    requires k < |pg.doc| && "letz" in pg.doc[k].attrs
    ensures
      var binding := ParseLetz(pg.doc[k].attrs["letz"]);
      Lookup(LetzStep(build, host, pg, k).state, binding.first) == CastToType(InitialValue(pg.doc[k]), binding.second, host)
    ensures "hidez" in pg.doc[k].attrs ==> LetzStep(build, host, pg, k).doc[k].display == "none"
  {
  }

  /** The initial value of a `letz` element is a string or a boolean, so
      its coercion never throws, whatever the type tag. */
  lemma InitialNeverThrows(e: Element, tag: string)
    ensures !CastThrows(InitialValue(e), tag)
  {
  }

  // ---------------------------------------------------------------------
  // Binding `getz` at startup

  /** Binding one `getz` element. A selector source copies that element's
      value into this element's text and installs a mirror listener (or does
      nothing when no element matches). A state source shows the nested read
      of the path in the built library, and runs `updateView(source)` in
      the earlier script. */
  function GetzStep(build: Build, host: Host, pg: BinderState, k: nat): (r: BinderState)
    requires k < |pg.doc| && StateOk(pg)
    ensures SameShape(pg.doc, r.doc) && StateOk(r) && r.state == pg.state && r.forms == pg.forms
  {
    var e := pg.doc[k];
    if "getz" !in e.attrs then pg
    else
      var source := e.attrs["getz"];
      if IsSelectorRef(source) then
        match QuerySelector(pg.doc, source)
        case None => pg
        case Some(j) =>
          pg.(doc := pg.doc[k := e.(text := TextOf(ValueOf(pg.doc[j])))], mirrors := pg.mirrors + [Mirror(j, k)])
      else if build == Dist then
        pg.(doc := pg.doc[k := e.(text := TextOf(NestedProperty(pg.state, source, host)))])
      else
        pg.(doc := ScriptView(pg.doc, pg.state, source), updates := pg.updates + [source])
  }

  /** The `getz` half of `bindValueEvents` over the first `n` elements. */
  function BindGetzUpTo(build: Build, host: Host, pg: BinderState, n: nat): (r: BinderState)
    requires n <= |pg.doc| && StateOk(pg)
    ensures SameShape(pg.doc, r.doc) && StateOk(r) && r.state == pg.state && r.forms == pg.forms
  {
    if n == 0 then pg
    else
      var before := BindGetzUpTo(build, host, pg, n - 1);
      var r := GetzStep(build, host, before, n - 1);
      SameShapeTransitive(pg.doc, before.doc, r.doc);
      r
  }

  /** In the built library, once the `getz` elements are bound, each one
      bound to a state path shows the nested read of that path: binding
      writes an element's text only in its own step. */
  lemma {:induction false} DistGetzBindShowsPaths(host: Host, pg: BinderState, n: nat, k: nat)
    requires n <= |pg.doc| && StateOk(pg)
    requires k < n && "getz" in pg.doc[k].attrs && !IsSelectorRef(pg.doc[k].attrs["getz"])
    ensures BindGetzUpTo(Dist, host, pg, n).doc[k].text == TextOf(NestedProperty(pg.state, pg.doc[k].attrs["getz"], host))
  {
    DistBindGetzStep(host, pg, n, k);
    if k < n - 1 {
      DistGetzBindShowsPaths(host, pg, n - 1, k);
    }
  }

  /** The last step of binding `getz` over `n` elements, in the built
      library: it writes only element `n - 1`. */
  lemma DistBindGetzStep(host: Host, pg: BinderState, n: nat, k: nat)
    requires 0 < n <= |pg.doc| && k < |pg.doc| && StateOk(pg)
    ensures k != n - 1 ==> BindGetzUpTo(Dist, host, pg, n).doc[k] == BindGetzUpTo(Dist, host, pg, n - 1).doc[k]
    ensures k == n - 1 && "getz" in pg.doc[k].attrs && !IsSelectorRef(pg.doc[k].attrs["getz"]) ==>
      BindGetzUpTo(Dist, host, pg, n).doc[k].text == TextOf(NestedProperty(pg.state, pg.doc[k].attrs["getz"], host))
  {
    BindGetzUnfold(Dist, host, pg, n);
    DistGetzStepEffect(host, BindGetzUpTo(Dist, host, pg, n - 1), n - 1, k);
  }

  lemma BindGetzUnfold(build: Build, host: Host, pg: BinderState, n: nat)
    requires 0 < n <= |pg.doc| && StateOk(pg)
    ensures BindGetzUpTo(build, host, pg, n) == GetzStep(build, host, BindGetzUpTo(build, host, pg, n - 1), n - 1)
    ensures BindGetzUpTo(build, host, pg, n - 1).doc[n - 1].attrs == pg.doc[n - 1].attrs
  {
  }

  /** In the built library one `getz` step writes only its own element, and
      a state source shows the nested read of its path. */
  lemma DistGetzStepEffect(host: Host, pg: BinderState, j: nat, k: nat)
    requires j < |pg.doc| && k < |pg.doc| && StateOk(pg)
    ensures k != j ==> GetzStep(Dist, host, pg, j).doc[k] == pg.doc[k]
    ensures k == j && "getz" in pg.doc[j].attrs && !IsSelectorRef(pg.doc[j].attrs["getz"]) ==>
      GetzStep(Dist, host, pg, j).doc[j].text == TextOf(NestedProperty(pg.state, pg.doc[j].attrs["getz"], host))
  {
  }

  /** Binding `getz` installs a mirror only for an element whose `getz`
      is a selector, from the element that selector finds. */
  lemma {:induction false} BindGetzMirrorsFromSelectors(build: Build, host: Host, pg: BinderState, n: nat)
    requires n <= |pg.doc| && StateOk(pg)
    ensures forall m :: m in BindGetzUpTo(build, host, pg, n).mirrors ==>
      m in pg.mirrors ||
      (m.target < n && "getz" in pg.doc[m.target].attrs && IsSelectorRef(pg.doc[m.target].attrs["getz"]))
  {
    if n > 0 {
      BindGetzMirrorsFromSelectors(build, host, pg, n - 1);
      BindGetzUnfold(build, host, pg, n);
      GetzStepMirrors(build, host, BindGetzUpTo(build, host, pg, n - 1), n - 1);
    }
  }

  /** One `getz` step adds at most a mirror onto its own element, and only
      when that element's `getz` is a selector. */
  lemma GetzStepMirrors(build: Build, host: Host, pg: BinderState, k: nat)
    requires k < |pg.doc| && StateOk(pg)
    ensures forall m :: m in GetzStep(build, host, pg, k).mirrors ==>
      m in pg.mirrors ||
      (m.target == k && "getz" in pg.doc[k].attrs && IsSelectorRef(pg.doc[k].attrs["getz"]))
  {
  }

  /** `new GenZ()` on a loaded page: an empty state, then the `letz`
      bindings, then the `getz` bindings. */
  function Startup(build: Build, host: Host, page: seq<Element>): (r: BinderState)
    ensures SameShape(page, r.doc) && StateOk(r) && r.forms == []
  {
    var bound := BindLetzUpTo(build, host, BinderState(map[], page, [], [], []), |page|);
    BindGetzUpTo(build, host, bound, |bound.doc|)
  }

  // ---------------------------------------------------------------------
  // Input events

  /** What the browser does to the element the user edits: a checkbox takes
      the new checked state, another element with a value the typed text. */
  function Edit(e: Element, typed: string, ticked: bool): Element
  {
    if e.checkbox then e.(checked := ticked) else if e.hasValue then e.(value := typed) else e
  }

  /** What the `letz` input listener reads: `checked` for a checkbox, the
      value otherwise (undefined for an element without one). */
  function RawInput(e: Element): (v: Value)
    ensures v.Bool? <==> e.checkbox
    ensures v.Undef? <==> !e.checkbox && !e.hasValue
    ensures !e.checkbox ==> v == ValueOf(e)
  {
    if e.checkbox then Bool(e.checked) else ValueOf(e)
  }

  /** After the user's edit, the listener reads back exactly what was
      entered: the new checked state of a checkbox, the typed text of
      another element with a value, and undefined for any other element. */
  lemma RawInputReadsEdit(e: Element, typed: string, ticked: bool)
    ensures e.checkbox ==> RawInput(Edit(e, typed, ticked)) == Bool(ticked)
    ensures !e.checkbox && e.hasValue ==> RawInput(Edit(e, typed, ticked)) == Str(typed)
    ensures !e.checkbox && !e.hasValue ==> RawInput(Edit(e, typed, ticked)) == Undef
  {
  }

  /** The mirror listeners on `src`, in the order they were installed, each
      copying the value of `src` into the text of its target. */
  function Mirrored(doc: seq<Element>, ms: seq<Mirror>, src: nat): (r: seq<Element>)
    requires src < |doc| && forall m :: m in ms ==> m.target < |doc|
    ensures |r| == |doc| && forall k :: 0 <= k < |r| ==> r[k] == doc[k].(text := r[k].text)
    ensures SameShape(doc, r)
    decreases |ms|
  {
    if ms == [] then doc
    else
      var m := ms[0];
      var d := if m.source == src then doc[m.target := doc[m.target].(text := TextOf(ValueOf(doc[src])))] else doc;
      assert forall x :: x in ms[1..] ==> x in ms;
      var r := Mirrored(d, ms[1..], src);
      SetTextOnly(doc, m.target, TextOf(ValueOf(doc[src])));
      UnchangedTextOnly(doc);
      TextOnlyTransitive(doc, d, r);
      TextOnlyKeepsShape(doc, r);
      r
  }

  /** A rewrite that changes only texts keeps the page's shape. */
  lemma TextOnlyKeepsShape(d1: seq<Element>, d2: seq<Element>)
    requires |d1| == |d2|
    requires forall k :: 0 <= k < |d2| ==> d2[k] == d1[k].(text := d2[k].text)
    ensures SameShape(d1, d2)
  {
  }

  /** Setting the text of one element changes only texts. */
  lemma SetTextOnly(doc: seq<Element>, t: nat, text: string)
    requires t < |doc|
    ensures forall k :: 0 <= k < |doc| ==> doc[t := doc[t].(text := text)][k] == doc[k].(text := doc[t := doc[t].(text := text)][k].text)
  {
  }

  lemma UnchangedTextOnly(doc: seq<Element>)
    ensures forall k :: 0 <= k < |doc| ==> doc[k] == doc[k].(text := doc[k].text)
  {
  }

  /** Two rewrites that each change only texts change only texts. */
  lemma TextOnlyTransitive(d1: seq<Element>, d2: seq<Element>, d3: seq<Element>)
    requires |d1| == |d2| == |d3|
    requires forall k :: 0 <= k < |d2| ==> d2[k] == d1[k].(text := d2[k].text)
    requires forall k :: 0 <= k < |d3| ==> d3[k] == d2[k].(text := d3[k].text)
    ensures forall k :: 0 <= k < |d3| ==> d3[k] == d1[k].(text := d3[k].text)
  {
  }

  /** An element that no mirror on `src` targets keeps its text. */
  lemma {:induction false} MirroredLeaves(doc: seq<Element>, ms: seq<Mirror>, src: nat, k: nat)
    requires src < |doc| && k < |doc| && forall m :: m in ms ==> m.target < |doc|
    requires forall m :: m in ms && m.source == src ==> m.target != k
    ensures Mirrored(doc, ms, src)[k] == doc[k]
    decreases |ms|
  {
    if ms != [] {
      var m := ms[0];
      var d := if m.source == src then doc[m.target := doc[m.target].(text := TextOf(ValueOf(doc[src])))] else doc;
      assert forall x :: x in ms[1..] ==> x in ms;
      MirroredLeaves(d, ms[1..], src, k);
    }
  }

  /** Every element a mirror on `src` targets ends up showing the value of
      `src` as its text, whatever the other mirrors do. */
  lemma {:induction false} MirroredCopies(doc: seq<Element>, ms: seq<Mirror>, src: nat, t: nat)
    requires src < |doc| && t < |doc| && forall m :: m in ms ==> m.target < |doc|
    requires Mirror(src, t) in ms
    ensures Mirrored(doc, ms, src)[t].text == TextOf(ValueOf(doc[src]))
    decreases |ms|
  {
    var m := ms[0];
    var d := if m.source == src then doc[m.target := doc[m.target].(text := TextOf(ValueOf(doc[src])))] else doc;
    assert ValueOf(d[src]) == ValueOf(doc[src]);
    assert forall x :: x in ms[1..] ==> x in ms;
    assert Mirrored(doc, ms, src) == Mirrored(d, ms[1..], src);
    if Mirror(src, t) in ms[1..] {
      MirroredCopies(d, ms[1..], src, t);
    } else {
      assert m == Mirror(src, t);
      MirroredLeaves(d, ms[1..], src, t);
    }
  }

  /** An input on element `i`: the browser edit, then the `letz` listener
      (which writes nothing when its coercion throws), then the mirrors. */
  function InputSpec(build: Build, host: Host, pg: BinderState, i: nat, typed: string, ticked: bool): (r: BinderState)
    requires i < |pg.doc| && StateOk(pg)
    ensures StateOk(r) && r.mirrors == pg.mirrors && r.forms == pg.forms
  {
    var e := Edit(pg.doc[i], typed, ticked);
    var edited := pg.(doc := pg.doc[i := e]);
    var afterLetz :=
      if "letz" in e.attrs && !CastThrows(RawInput(e), ParseLetz(e.attrs["letz"]).second) then
        var binding := ParseLetz(e.attrs["letz"]);
        Write(build, host, edited, binding.first, CastToType(RawInput(e), binding.second, host))
      else edited;
    afterLetz.(doc := Mirrored(afterLetz.doc, afterLetz.mirrors, i))
  }

  /** Typing into a text field bound by an untyped `letz="name"` stores
      the text under `name` and leaves the field showing exactly what was
      typed, in both builds. */
  lemma InputEchoesTypedText(build: Build, host: Host, pg: BinderState, i: nat, typed: string)
    requires i < |pg.doc| && StateOk(pg)
    requires pg.doc[i].hasValue && !pg.doc[i].checkbox
    requires "letz" in pg.doc[i].attrs && ':' !in pg.doc[i].attrs["letz"]
    ensures InputSpec(build, host, pg, i, typed, false).state == pg.state[pg.doc[i].attrs["letz"] := Str(typed)]
    ensures InputSpec(build, host, pg, i, typed, false).doc[i].value == typed
  {
    var name := pg.doc[i].attrs["letz"];
    assert ParseLetz(name) == Pair(name, "string");
    var e := Edit(pg.doc[i], typed, false);
    var edited := pg.(doc := pg.doc[i := e]);
    var w := Write(build, host, edited, name, Str(typed));
    StringCastKeepsText(typed, host);
    assert w.doc[i].value == typed by {
      assert LetzIs(e.attrs, name);
      assert name != [] ==> LetzNamed(e.attrs, name);
      if build == Dist {
        assert w.doc[i] == RefreshDist(e, w.state, name, host);
        DistRefreshEffect(e, w.state, name, host);
      } else {
        assert w.doc[i] == RefreshScript(e, w.state, name);
        ScriptRefreshEffect(e, w.state, name);
      }
    }
  }

  /** What is typed into a field bound by an untyped `letz="name"` appears,
      in both builds, in every other element bound with `getz="name"` that
      no mirror listener on the field writes over. */
  lemma InputShowsInGetz(build: Build, host: Host, pg: BinderState, i: nat, k: nat, typed: string)
    requires i < |pg.doc| && k < |pg.doc| && i != k && StateOk(pg)
    requires pg.doc[i].hasValue && !pg.doc[i].checkbox
    requires "letz" in pg.doc[i].attrs && ':' !in pg.doc[i].attrs["letz"]
    requires "getz" in pg.doc[k].attrs && pg.doc[k].attrs["getz"] == pg.doc[i].attrs["letz"] && "letz" !in pg.doc[k].attrs
    requires forall m :: m in pg.mirrors && m.source == i ==> m.target != k
    ensures InputSpec(build, host, pg, i, typed, false).doc[k].text == typed
  {
    var name := pg.doc[i].attrs["letz"];
    assert ParseLetz(name) == Pair(name, "string");
    StringCastKeepsText(typed, host);
    var e := Edit(pg.doc[i], typed, false);
    var edited := pg.(doc := pg.doc[i := e]);
    var w := Write(build, host, edited, name, Str(typed));
    assert w.doc[k].text == typed by {
      var shown := pg.doc[k];
      assert edited.doc[k] == shown;
      assert !GetzUnder(shown.attrs, name) by {
        assert |name + "."| > |shown.attrs["getz"]|;
      }
      if build == Dist {
        assert w.doc[k] == RefreshDist(shown, w.state, name, host);
        DistRefreshEffect(shown, w.state, name, host);
      } else {
        assert w.doc[k] == RefreshScript(shown, w.state, name);
        ScriptRefreshEffect(shown, w.state, name);
      }
    }
    MirroredLeaves(w.doc, w.mirrors, i, k);
  }

  /** A checkbox bound with `letz="name:boolean"` (the tag in any case)
      stores its new checked state under `name`. */
  lemma InputStoresTick(build: Build, host: Host, pg: BinderState, i: nat, name: string, tag: string, ticked: bool)
    requires i < |pg.doc| && StateOk(pg) && pg.doc[i].checkbox
    requires ':' !in name && ':' !in tag && ToLower(tag) == "boolean"
    requires "letz" in pg.doc[i].attrs && pg.doc[i].attrs["letz"] == name + ":" + tag
    ensures InputSpec(build, host, pg, i, "", ticked).state == pg.state[name := Bool(ticked)]
  {
    LetzRoundTrip(name, tag);
    var e := Edit(pg.doc[i], "", ticked);
    assert RawInput(e) == Bool(ticked);
    BooleanCast(Bool(ticked), tag, host);
  }

  /** On an element without a value, the `letz` listener of a `boolean`
      binding reads undefined, its coercion throws, and the input writes
      no state and runs no `updateView`. */
  lemma InputWithoutValueWritesNothing(build: Build, host: Host, pg: BinderState, i: nat, typed: string, ticked: bool)
    requires i < |pg.doc| && StateOk(pg) && !pg.doc[i].checkbox && !pg.doc[i].hasValue
    requires "letz" in pg.doc[i].attrs && ToLower(ParseLetz(pg.doc[i].attrs["letz"]).second) == "boolean"
    ensures InputSpec(build, host, pg, i, typed, ticked).state == pg.state
    ensures InputSpec(build, host, pg, i, typed, ticked).updates == pg.updates
  {
  }

  // ---------------------------------------------------------------------
  // Click handlers

  /** `setz="target:expression"`: evaluate the expression (the text
      "undefined" when there is no colon) against the state; a selector
      target receives the value in its value or its text, and nothing
      happens when no element matches; any other target is a state write. */
  function SetzSpec(build: Build, host: Host, pg: BinderState, attr: string): (r: BinderState)
    ensures SameShape(pg.doc, r.doc) && r.mirrors == pg.mirrors && r.forms == pg.forms
  {
    var cut := CutAtFirst(attr, ':');
    var value := Evaluate(host, if cut.after.Some? then cut.after.value else "undefined", pg.state);
    if IsSelectorRef(cut.before) then
      match QuerySelector(pg.doc, cut.before)
      case None => pg
      case Some(j) => pg.(doc := pg.doc[j := WriteValueOrText(pg.doc[j], value)])
    else Write(build, host, pg, cut.before, value)
  }

  /** A `setz` whose target is a selector never writes the state and never
      runs `updateView`; it changes at most the one element it finds, whose
      value (or text, when it has no value property) becomes the evaluated
      expression. */
  lemma SetzSelectorLeavesState(build: Build, host: Host, pg: BinderState, attr: string)
    requires IsSelectorRef(CutAtFirst(attr, ':').before)
    ensures SetzSpec(build, host, pg, attr).state == pg.state
    ensures SetzSpec(build, host, pg, attr).updates == pg.updates
    ensures QuerySelector(pg.doc, CutAtFirst(attr, ':').before).None? ==> SetzSpec(build, host, pg, attr) == pg
    ensures forall k :: 0 <= k < |pg.doc| && Some(k) != QuerySelector(pg.doc, CutAtFirst(attr, ':').before) ==>
      SetzSpec(build, host, pg, attr).doc[k] == pg.doc[k]
    ensures
      var cut := CutAtFirst(attr, ':');
      var found := QuerySelector(pg.doc, cut.before);
      var value := Evaluate(host, if cut.after.Some? then cut.after.value else "undefined", pg.state);
      found.Some? ==>
        && (pg.doc[found.value].hasValue ==> SetzSpec(build, host, pg, attr).doc[found.value].value == ValuePropOf(value))
        && (!pg.doc[found.value].hasValue ==> SetzSpec(build, host, pg, attr).doc[found.value].text == TextOf(value))
  {
  }

  /** `setz="name:expression"`, with no dot or hash at the front, writes the
      evaluated expression, later colons included, under `name`. */
  lemma SetzWritesState(build: Build, host: Host, pg: BinderState, name: string, expression: string)
    requires ':' !in name && !IsSelectorRef(name)
    ensures SetzSpec(build, host, pg, name + ":" + expression) ==
      Write(build, host, pg, name, Evaluate(host, expression, pg.state))
  {
    assert name + ":" + expression == name + [':'] + expression;
    CutUnique(name + ":" + expression, ':', name, expression);
  }

  /** `fetchz="url:var"` once the request has settled: `response` is the
      parsed body, or nothing when the request, the status or the JSON
      failed. A malformed attribute or a failed request writes nothing. */
  function FetchzSpec(host: Host, pg: BinderState, attr: string, response: Option<Value>): (r: BinderState)
    ensures SameShape(pg.doc, r.doc) && r.mirrors == pg.mirrors && r.forms == pg.forms
  {
    match ParseFetchz(attr)
    case None => pg
    case Some(t) =>
      match response
      case None => pg
      case Some(data) => Write(Dist, host, pg, t.varName, data)
  }

  /** `fetchz` writes the state exactly when the attribute parses and the
      request succeeds, and then under the name after the last colon. */
  lemma FetchzWritesOnlyOnSuccess(host: Host, pg: BinderState, attr: string, response: Option<Value>)
    ensures FetchzSpec(host, pg, attr, response) != pg ==> ParseFetchz(attr).Some? && response.Some?
    ensures ParseFetchz(attr).Some? && response.Some? ==>
      FetchzSpec(host, pg, attr, response).state == pg.state[ParseFetchz(attr).value.varName := response.value]
    ensures ParseFetchz(attr).None? || response.None? ==> FetchzSpec(host, pg, attr, response) == pg
  {
  }

  /** `togglez`: the matched element's display flips between "none" and "". */
  function TogglezSpec(pg: BinderState, sel: string): BinderState
  {
    match QuerySelector(pg.doc, sel)
    case None => pg
    case Some(j) => pg.(doc := pg.doc[j := pg.doc[j].(display := ToggledDisplay(pg.doc[j].display))])
  }

  /** `togglez-class="selector:class"`: toggle the class on the matched element. */
  function ToggleClassSpec(pg: BinderState, attr: string): BinderState
  {
    var pair := ParseToggleClass(attr);
    match QuerySelector(pg.doc, pair.first)
    case None => pg
    case Some(j) => pg.(doc := pg.doc[j := pg.doc[j].(classes := ToggleClass(pg.doc[j].classes, pair.second))])
  }

  /** `showz` and `hidez`: set the matched element's display. */
  function DisplaySpec(pg: BinderState, sel: string, display: string): BinderState
  {
    match QuerySelector(pg.doc, sel)
    case None => pg
    case Some(j) => pg.(doc := pg.doc[j := pg.doc[j].(display := display)])
  }

  /** Clicking `togglez` twice leaves an element hidden or shown as it was
      when its display was "" or "none"; `showz` and `hidez` are idempotent;
      none of them touches anything but the matched element's display. */
  lemma DisplayHandlers(pg: BinderState, sel: string, display: string)
    ensures TogglezSpec(TogglezSpec(pg, sel), sel) == pg <==>
      (QuerySelector(pg.doc, sel).None? ||
       pg.doc[QuerySelector(pg.doc, sel).value].display in {"", "none"})
    ensures DisplaySpec(DisplaySpec(pg, sel, display), sel, display) == DisplaySpec(pg, sel, display)
    ensures QuerySelector(pg.doc, sel).Some? ==>
      DisplaySpec(pg, sel, display).doc[QuerySelector(pg.doc, sel).value].display == display
    ensures forall k :: 0 <= k < |pg.doc| && Some(k) != QuerySelector(pg.doc, sel) ==>
      DisplaySpec(pg, sel, display).doc[k] == pg.doc[k] && TogglezSpec(pg, sel).doc[k] == pg.doc[k]
  {
    match QuerySelector(pg.doc, sel)
    case None =>
    case Some(j) =>
      var e := pg.doc[j];
      ToggleTwice(e.display);
      var t := TogglezSpec(pg, sel);
      assert QuerySelector(t.doc, sel) == Some(j) by {
        assert forall k :: 0 <= k < |t.doc| ==> t.doc[k].attrs == pg.doc[k].attrs && t.doc[k].classes == pg.doc[k].classes && t.doc[k].tag == pg.doc[k].tag;
        QuerySelectorSeesOnlyShape(pg.doc, t.doc, sel);
      }
      var s := DisplaySpec(pg, sel, display);
      assert QuerySelector(s.doc, sel) == Some(j) by {
        QuerySelectorSeesOnlyShape(pg.doc, s.doc, sel);
      }
      if TogglezSpec(t, sel) == pg {
        assert TogglezSpec(t, sel).doc[j].display == e.display;
      }
  }

  /** `querySelector` looks only at tags, attributes and classes. */
  lemma QuerySelectorSeesOnlyShape(d1: seq<Element>, d2: seq<Element>, sel: string)
    requires |d1| == |d2|
    requires forall k :: 0 <= k < |d1| ==> d1[k].tag == d2[k].tag && d1[k].attrs == d2[k].attrs && d1[k].classes == d2[k].classes
    ensures QuerySelector(d1, sel) == QuerySelector(d2, sel)
  {
    assert forall k :: 0 <= k < |d1| ==> (Matches(d1[k], sel) <==> Matches(d2[k], sel));
    FindFromSeesOnlyMatches(d1, d2, sel, 0);
  }

  lemma {:induction false} FindFromSeesOnlyMatches(d1: seq<Element>, d2: seq<Element>, sel: string, from: nat)
    requires |d1| == |d2| && from <= |d1|
    requires forall k :: 0 <= k < |d1| ==> (Matches(d1[k], sel) <==> Matches(d2[k], sel))
    ensures FindFrom(d1, sel, from) == FindFrom(d2, sel, from)
    decreases |d1| - from
  {
    if from < |d1| {
      FindFromSeesOnlyMatches(d1, d2, sel, from + 1);
    }
  }

  /** `clearz`: a matched FORM is reset; any other matched element loses its
      value, or its text when it has no value. */
  function ClearzSpec(pg: BinderState, sel: string): BinderState
  {
    match QuerySelector(pg.doc, sel)
    case None => pg
    case Some(j) =>
      if pg.doc[j].tag == "FORM" then pg.(forms := pg.forms + [Reset(j)])
      else if pg.doc[j].hasValue then pg.(doc := pg.doc[j := pg.doc[j].(value := "")])
      else pg.(doc := pg.doc[j := pg.doc[j].(text := "")])
  }

  /** After `clearz` the matched element, unless it is a form, shows nothing
      in the place the binder writes to; clearing twice is clearing once
      for such an element; a missing target changes nothing. */
  lemma ClearzEmpties(pg: BinderState, sel: string)
    ensures QuerySelector(pg.doc, sel).None? ==> ClearzSpec(pg, sel) == pg
    ensures QuerySelector(pg.doc, sel).Some? && pg.doc[QuerySelector(pg.doc, sel).value].tag != "FORM" ==>
      var j := QuerySelector(pg.doc, sel).value;
      && (pg.doc[j].hasValue ==> ClearzSpec(pg, sel).doc[j].value == "")
      && (!pg.doc[j].hasValue ==> ClearzSpec(pg, sel).doc[j].text == "")
      && ClearzSpec(ClearzSpec(pg, sel), sel) == ClearzSpec(pg, sel)
      && ClearzSpec(pg, sel).state == pg.state && ClearzSpec(pg, sel).forms == pg.forms
  {
    match QuerySelector(pg.doc, sel)
    case None =>
    case Some(j) =>
      if pg.doc[j].tag != "FORM" {
        var c := ClearzSpec(pg, sel);
        QuerySelectorSeesOnlyShape(pg.doc, c.doc, sel);
      }
  }

  /** `submitz`: a matched FORM is submitted; anything else does nothing. */
  function SubmitzSpec(pg: BinderState, sel: string): BinderState
  {
    match QuerySelector(pg.doc, sel)
    case None => pg
    case Some(j) => if pg.doc[j].tag == "FORM" then pg.(forms := pg.forms + [Submit(j)]) else pg
  }

  /** `submitz` logs one submission of a matched form and changes nothing
      else: not the state, the page, the mirrors or the update log. Unlike
      `clearz` it is not idempotent: a second click submits again. */
  lemma SubmitzLogsOnce(pg: BinderState, sel: string)
    ensures
      var r := SubmitzSpec(pg, sel);
      && r.state == pg.state && r.doc == pg.doc && r.mirrors == pg.mirrors && r.updates == pg.updates
    ensures
      var found := QuerySelector(pg.doc, sel);
      if found.Some? && pg.doc[found.value].tag == "FORM" then
        && SubmitzSpec(pg, sel).forms == pg.forms + [Submit(found.value)]
        && SubmitzSpec(SubmitzSpec(pg, sel), sel).forms == pg.forms + [Submit(found.value), Submit(found.value)]
      else
        SubmitzSpec(pg, sel) == pg
  {
  }

  // ---------------------------------------------------------------------
  // The object

  class GenZ {
    const build: Build
    const host: Host
    var state: map<string, Value>
    var doc: seq<Element>
    /** The keys `updateView` has been called with, in order. */
    var updates: seq<string>
    var mirrors: seq<Mirror>
    var forms: seq<FormAction>

    function Snapshot(): BinderState
      reads this
    {
      BinderState(state, doc, updates, mirrors, forms)
    }

    predicate Valid()
      reads this
    {
      StateOk(Snapshot())
    }

    /** `new GenZ()` on a loaded page: an empty state, then `bindEvents`,
        which binds the `letz` elements and then the `getz` elements (the
        other bindings only install the listeners modelled by the methods
        below). */
    constructor(build: Build, host: Host, page: seq<Element>)
      ensures Valid()
      ensures this.build == build && this.host == host
      ensures Snapshot() == Startup(build, host, page)
    {
      this.build := build;
      this.host := host;
      state := map[];
      doc := page;
      updates := [];
      mirrors := [];
      forms := [];
      new;
      BindLetz();
      BindGetz();
    }

    /** `this.state[key] = v`, through the Proxy trap. */
    method Set(key: string, v: Value)
      requires Valid()
      modifies this
      ensures Valid()
      ensures Snapshot() == Write(build, host, old(Snapshot()), key, v)
    {
      state := state[key := v];
      UpdateView(key);
    }

    /** `updateView(p)` of the running build. */
    method UpdateView(p: string)
      requires Valid()
      modifies this
      ensures Valid()
      ensures Snapshot() == old(Snapshot()).(doc := RenderView(build, old(doc), state, p, host), updates := old(updates) + [p])
    {
      updates := updates + [p];
      if build == Dist {
        doc := ApplyDistView(doc, state, p, host);
      } else {
        doc := ApplyScriptView(doc, state, p);
      }
    }

    /** `bindLetzEvents`. */
    method BindLetz()
      requires Valid()
      modifies this
      ensures Valid()
      ensures Snapshot() == BindLetzUpTo(build, host, old(Snapshot()), |old(doc)|)
    {
      var i := 0;
      while i < |doc|
        invariant 0 <= i <= |doc| && |doc| == |old(doc)|
        invariant Valid()
        invariant Snapshot() == BindLetzUpTo(build, host, old(Snapshot()), i)
      {
        BindLetzAt(i);
        BindLetzUnfold(build, host, old(Snapshot()), i + 1);
        i := i + 1;
      }
    }

    /** The `bindLetzEvents` callback for element `i`. */
    method BindLetzAt(i: nat)
      requires Valid() && i < |doc|
      modifies this
      ensures Valid()
      ensures Snapshot() == LetzStep(build, host, old(Snapshot()), i)
    {
      var e := doc[i];
      if "letz" in e.attrs {
        var binding := ParseLetz(e.attrs["letz"]);
        Set(binding.first, CastToType(InitialValue(e), binding.second, host));
        if "hidez" in e.attrs {
          doc := doc[i := doc[i].(display := "none")];
        }
      }
    }

    /** The `getz` half of `bindValueEvents`. */
    method BindGetz()
      requires Valid()
      modifies this
      ensures Valid()
      ensures Snapshot() == BindGetzUpTo(build, host, old(Snapshot()), |old(doc)|)
    {
      var i := 0;
      while i < |doc|
        invariant 0 <= i <= |doc| && |doc| == |old(doc)|
        invariant Valid()
        invariant Snapshot() == BindGetzUpTo(build, host, old(Snapshot()), i)
      {
        BindGetzAt(i);
        i := i + 1;
      }
    }

    /** The `getz` callback of `bindValueEvents` for element `i`. */
    method BindGetzAt(i: nat)
      requires Valid() && i < |doc|
      modifies this
      ensures Valid()
      ensures Snapshot() == GetzStep(build, host, old(Snapshot()), i)
    {
      var e := doc[i];
      if "getz" in e.attrs {
        var source := e.attrs["getz"];
        if IsSelectorRef(source) {
          var found := QuerySelector(doc, source);
          if found.Some? {
            doc := doc[i := e.(text := TextOf(ValueOf(doc[found.value])))];
            mirrors := mirrors + [Mirror(found.value, i)];
          }
        } else if build == Dist {
          var shown := GetNestedProperty(state, source, host);
          doc := doc[i := e.(text := TextOf(shown))];
        } else {
          UpdateView(source);
        }
      }
    }

    /** The user edits element `i`: `typed` is the new text of a field,
        `ticked` the new state of a checkbox. */
    method Input(i: nat, typed: string, ticked: bool)
      requires Valid() && i < |doc|
      modifies this
      ensures Valid()
      ensures Snapshot() == InputSpec(build, host, old(Snapshot()), i, typed, ticked)
    {
      doc := doc[i := Edit(doc[i], typed, ticked)];
      var e := doc[i];
      if "letz" in e.attrs {
        var binding := ParseLetz(e.attrs["letz"]);
        var raw := RawInput(e);
        if !CastThrows(raw, binding.second) {
          Set(binding.first, CastToType(raw, binding.second, host));
        }
      }
      CopyToMirrors(i);
    }

    /** The mirror listeners on element `src`, in installation order. */
    method CopyToMirrors(src: nat)
      requires Valid() && src < |doc|
      modifies this
      ensures Valid()
      ensures Snapshot() == old(Snapshot()).(doc := Mirrored(old(doc), old(mirrors), src))
    {
      ghost var goal := Mirrored(doc, mirrors, src);
      var j := 0;
      while j < |mirrors|
        invariant 0 <= j <= |mirrors| && |doc| == |old(doc)|
        invariant mirrors == old(mirrors) && state == old(state) && updates == old(updates) && forms == old(forms)
        invariant Valid()
        invariant Mirrored(doc, mirrors[j..], src) == goal
      {
        assert mirrors[j] in mirrors;
        assert mirrors[j..][1..] == mirrors[j + 1..];
        if mirrors[j].source == src {
          var t := mirrors[j].target;
          doc := doc[t := doc[t].(text := TextOf(ValueOf(doc[src])))];
        }
        j := j + 1;
      }
    }

    /** A click on a `setz` element. */
    method SetzClick(i: nat)
      requires Valid() && i < |doc| && "setz" in doc[i].attrs
      modifies this
      ensures Valid()
      ensures Snapshot() == SetzSpec(build, host, old(Snapshot()), old(doc)[i].attrs["setz"])
    {
      var cut := CutAtFirst(doc[i].attrs["setz"], ':');
      var value := Evaluate(host, if cut.after.Some? then cut.after.value else "undefined", state);
      if IsSelectorRef(cut.before) {
        var found := QuerySelector(doc, cut.before);
        if found.Some? {
          doc := doc[found.value := WriteValueOrText(doc[found.value], value)];
        }
      } else {
        Set(cut.before, value);
      }
    }

    /** A click on a `fetchz` element, with the settled outcome of the
        request; the earlier script has no `fetchz`. */
    method FetchzClick(i: nat, response: Option<Value>)
      requires Valid() && i < |doc| && "fetchz" in doc[i].attrs
      modifies this
      ensures Valid()
      ensures build == Dist ==> Snapshot() == FetchzSpec(host, old(Snapshot()), old(doc)[i].attrs["fetchz"], response)
      ensures build == Script ==> Snapshot() == old(Snapshot())
    {
      if build == Dist {
        var target := ParseFetchz(doc[i].attrs["fetchz"]);
        if target.Some? && response.Some? {
          Set(target.value.varName, response.value);
        }
      }
    }

    method TogglezClick(i: nat)
      requires Valid() && i < |doc| && "togglez" in doc[i].attrs
      modifies this
      ensures Valid()
      ensures Snapshot() == TogglezSpec(old(Snapshot()), old(doc)[i].attrs["togglez"])
    {
      var found := QuerySelector(doc, doc[i].attrs["togglez"]);
      if found.Some? {
        var j := found.value;
        doc := doc[j := doc[j].(display := ToggledDisplay(doc[j].display))];
      }
    }

    method ToggleClassClick(i: nat)
      requires Valid() && i < |doc| && "togglez-class" in doc[i].attrs
      modifies this
      ensures Valid()
      ensures Snapshot() == ToggleClassSpec(old(Snapshot()), old(doc)[i].attrs["togglez-class"])
    {
      var pair := ParseToggleClass(doc[i].attrs["togglez-class"]);
      var found := QuerySelector(doc, pair.first);
      if found.Some? {
        var j := found.value;
        doc := doc[j := doc[j].(classes := ToggleClass(doc[j].classes, pair.second))];
      }
    }

    method ShowzClick(i: nat)
      requires Valid() && i < |doc| && "showz" in doc[i].attrs
      modifies this
      ensures Valid()
      ensures Snapshot() == DisplaySpec(old(Snapshot()), old(doc)[i].attrs["showz"], "")
    {
      var found := QuerySelector(doc, doc[i].attrs["showz"]);
      if found.Some? {
        doc := doc[found.value := doc[found.value].(display := "")];
      }
    }

    method HidezClick(i: nat)
      requires Valid() && i < |doc| && "hidez" in doc[i].attrs
      modifies this
      ensures Valid()
      ensures Snapshot() == DisplaySpec(old(Snapshot()), old(doc)[i].attrs["hidez"], "none")
    {
      var found := QuerySelector(doc, doc[i].attrs["hidez"]);
      if found.Some? {
        doc := doc[found.value := doc[found.value].(display := "none")];
      }
    }

    method ClearzClick(i: nat)
      requires Valid() && i < |doc| && "clearz" in doc[i].attrs
      modifies this
      ensures Valid()
      ensures Snapshot() == ClearzSpec(old(Snapshot()), old(doc)[i].attrs["clearz"])
    {
      var found := QuerySelector(doc, doc[i].attrs["clearz"]);
      if found.Some? {
        var j := found.value;
        if doc[j].tag == "FORM" {
          forms := forms + [Reset(j)];
        } else if doc[j].hasValue {
          doc := doc[j := doc[j].(value := "")];
        } else {
          doc := doc[j := doc[j].(text := "")];
        }
      }
    }

    method SubmitzClick(i: nat)
      requires Valid() && i < |doc| && "submitz" in doc[i].attrs
      modifies this
      ensures Valid()
      ensures Snapshot() == SubmitzSpec(old(Snapshot()), old(doc)[i].attrs["submitz"])
    {
      var found := QuerySelector(doc, doc[i].attrs["submitz"]);
      if found.Some? && doc[found.value].tag == "FORM" {
        forms := forms + [Submit(found.value)];
      }
    }

    /** `hoverz`: the pointer enters element `i`. */
    method MouseEnter(i: nat)
      requires Valid() && i < |doc| && "hoverz" in doc[i].attrs
      modifies this
      ensures Valid()
      ensures Snapshot() == old(Snapshot()).(doc := old(doc)[i := old(doc)[i].(classes := AddClass(old(doc)[i].classes, old(doc)[i].attrs["hoverz"]))])
    {
      doc := doc[i := doc[i].(classes := AddClass(doc[i].classes, doc[i].attrs["hoverz"]))];
    }

    /** `hoverz`: the pointer leaves element `i`. */
    method MouseLeave(i: nat)
      requires Valid() && i < |doc| && "hoverz" in doc[i].attrs
      modifies this
      ensures Valid()
      ensures Snapshot() == old(Snapshot()).(doc := old(doc)[i := old(doc)[i].(classes := RemoveClass(old(doc)[i].classes, old(doc)[i].attrs["hoverz"]))])
    {
      doc := doc[i := doc[i].(classes := RemoveClass(doc[i].classes, doc[i].attrs["hoverz"]))];
    }
  }
}
