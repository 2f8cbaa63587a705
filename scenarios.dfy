/** Two pages run end to end through the `GenZ` class: typing into a
    two-way field, and a counter button. */
module Scenarios {
  import opened JsText
  import opened JsValues
  import opened Format
  import opened Attributes
  import opened Dom
  import opened View
  import opened Binder

  /** `<input letz="name"><p getz="name"></p>`. */
  function TypingPage(): seq<Element>
  {
    [Element("INPUT", map["letz" := "name"], true, "", "", false, false, "", {}),
     Element("P", map["getz" := "name"], false, "", "", false, false, "", {})]
  }

  /** After startup a page `<input letz="name"><p getz="name">` keeps its
      two elements and no mirror is installed. */
  lemma TypingStartup(build: Build, host: Host, page: seq<Element>, name: string)
    requires |page| == 2 && !IsSelectorRef(name)
    requires page[0].attrs == map["letz" := name] && page[0].hasValue && !page[0].checkbox
    requires page[1].attrs == map["getz" := name]
    ensures var pg := Startup(build, host, page);
      && |pg.doc| == 2 && StateOk(pg)
      && pg.doc[0].hasValue && !pg.doc[0].checkbox
      && pg.doc[0].attrs == page[0].attrs && pg.doc[1].attrs == page[1].attrs
      && forall m :: m !in pg.mirrors
  {
    var bound := BindLetzUpTo(build, host, BinderState(map[], page, [], [], []), |page|);
    BindGetzMirrorsFromSelectors(build, host, bound, |bound.doc|);
    assert bound.doc[0].attrs == page[0].attrs && bound.doc[1].attrs == page[1].attrs;
  }

  /** Typing into the field of such a page stores the text under `name`
      and shows it in the paragraph as soon as the input event has been
      handled. */
  method TypeInto(build: Build, host: Host, page: seq<Element>, name: string, typed: string)
    returns (shown: string, stored: Value)
    requires |page| == 2 && ':' !in name && !IsSelectorRef(name)
    requires page[0].attrs == map["letz" := name] && page[0].hasValue && !page[0].checkbox
    requires page[1].attrs == map["getz" := name]
    ensures shown == typed && stored == Str(typed)
  {
    var g := new GenZ(build, host, page);
    ghost var pg := g.Snapshot();
    TypingStartup(build, host, page, name);
    InputEchoesTypedText(build, host, pg, 0, typed);
    InputShowsInGetz(build, host, pg, 0, 1, typed);
    g.Input(0, typed, false);
    shown := g.doc[1].text;
    stored := Lookup(g.state, name);
  }

  /** Typing "Ada" into `<input letz="name">` shows "Ada" in `<p getz="name">`. */
  method TypingScenario(build: Build, host: Host) returns (shown: string, stored: Value)
    ensures shown == "Ada" && stored == Str("Ada")
  {
    assert !IsSelectorRef("name") by { assert "name"[..1] == "n"; }
    shown, stored := TypeInto(build, host, TypingPage(), "name", "Ada");
  }

  /** `<button setz="count:count + 1">+</button><span getz="count"></span>`. */
  function CounterPage(): seq<Element>
  {
    [Element("BUTTON", map["setz" := "count:count + 1"], false, "", "+", false, false, "", {}),
     Element("SPAN", map["getz" := "count"], false, "", "", false, false, "", {})]
  }

  /** After startup a page `<button setz="name:expression"><span getz="name">`
      has an empty state and keeps its two elements. */
  lemma CounterStartup(build: Build, host: Host, page: seq<Element>, name: string, expression: string)
    requires |page| == 2
    requires page[0].attrs == map["setz" := name + ":" + expression] && page[1].attrs == map["getz" := name]
    ensures var pg := Startup(build, host, page);
      && |pg.doc| == 2 && StateOk(pg) && pg.state == map[]
      && pg.doc[0].attrs == page[0].attrs && pg.doc[1].attrs == page[1].attrs
  {
    var start := BinderState(map[], page, [], [], []);
    BindLetzWritesEachName(build, host, start, 2);
    assert LetzNames(page, 1) == [];
    assert LetzNames(page, 2) == [];
    var bound := BindLetzUpTo(build, host, start, 2);
    assert bound.state == map[] by {
      assert bound.state.Keys == {};
    }
    assert bound.doc[0].attrs == page[0].attrs && bound.doc[1].attrs == page[1].attrs;
  }

  /** One click on a `setz="name:expression"` button whose expression adds
      one to the number under `name`: the state holds the successor and a
      `getz="name"` element shows it. */
  lemma CounterClick(build: Build, host: Host, pg: BinderState, name: string, expression: string, n: int)
    requires ':' !in name && !IsSelectorRef(name)
    requires 1 < |pg.doc| && pg.doc[1].attrs == map["getz" := name]
    requires pg.state == map[name := Num(n)]
    requires host.evaluate(expression, pg.state) == Some(Num(n + 1))
    ensures SetzSpec(build, host, pg, name + ":" + expression).state == map[name := Num(n + 1)]
    ensures SetzSpec(build, host, pg, name + ":" + expression).doc[1].text == ToJsString(Num(n + 1))
  {
    SetzWritesState(build, host, pg, name, expression);
    assert GetzIs(pg.doc[1].attrs, name);
    WriteShowsInGetz(build, host, pg, name, Num(n + 1), 1);
  }

  /** Clicks the counter button of a two-element counter page and reads the
      counter's display. */
  method Click(g: GenZ, name: string, expression: string, n: int) returns (shown: string)
    requires g.Valid() && |g.doc| == 2 && ':' !in name && !IsSelectorRef(name)
    requires g.doc[0].attrs == map["setz" := name + ":" + expression] && g.doc[1].attrs == map["getz" := name]
    requires g.state == map[name := Num(n)]
    requires g.host.evaluate(expression, g.state) == Some(Num(n + 1))
    modifies g
    ensures g.Valid() && |g.doc| == 2
    ensures g.doc[0].attrs == map["setz" := name + ":" + expression] && g.doc[1].attrs == map["getz" := name]
    ensures g.state == map[name := Num(n + 1)]
    ensures shown == ToJsString(Num(n + 1))
  {
    CounterClick(g.build, g.host, g.Snapshot(), name, expression, n);
    g.SetzClick(0);
    shown := g.doc[1].text;
  }

  /** Loads a counter page and then sets the counter to 0 directly through
      the store's set trap (`GenZ.Set`), before the first click. */
  method CounterStart(build: Build, host: Host, page: seq<Element>, name: string, expression: string)
    returns (g: GenZ)
    requires |page| == 2
    requires page[0].attrs == map["setz" := name + ":" + expression] && page[1].attrs == map["getz" := name]
    ensures fresh(g) && g.Valid() && |g.doc| == 2 && g.build == build && g.host == host
    ensures g.doc[0].attrs == page[0].attrs && g.doc[1].attrs == page[1].attrs
    ensures g.state == map[name := Num(0)]
  {
    g := new GenZ(build, host, page);
    CounterStartup(build, host, page, name, expression);
    g.Set(name, Num(0));
  }

  /** Starting from `count = 0`, the first click shows "1" and the second "2". */
  method CounterScenario(build: Build, host: Host) returns (first: string, second: string)
    requires host.evaluate("count + 1", map["count" := Num(0)]) == Some(Num(1))
    requires host.evaluate("count + 1", map["count" := Num(1)]) == Some(Num(2))
    ensures first == "1" && second == "2"
  {
    assert "count:count + 1" == "count" + ":" + "count + 1";
    assert !IsSelectorRef("count") by { assert "count"[..1] == "c"; }
    var g := CounterStart(build, host, CounterPage(), "count", "count + 1");
    first := Click(g, "count", "count + 1", 0);
    assert first == "1" by { assert NatToString(1) == "1"; }
    second := Click(g, "count", "count + 1", 1);
    assert second == "2" by { assert NatToString(2) == "2"; }
  }
}
