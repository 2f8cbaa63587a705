/** Reading the binder's attribute values: `letz="name[:type]"`,
    `setz="target:expression"`, `fetchz="url:var"`,
    `togglez-class="selector:class"`, and the tests `updateView` applies to
    `getz` and `letz` attributes. */
module Attributes {
  import opened JsText

  /** The first two pieces of a `split(":")`, destructured as
      `const [first, second = missing] = s.split(":")`. */
  datatype Pair = Pair(first: string, second: string)

  function SplitPair(s: string, missing: string): (r: Pair)
    ensures r.first == CutAtFirst(s, ':').before
    ensures ':' !in s ==> r.second == missing
    ensures ':' in s ==> r.second == CutAtFirst(CutAtFirst(s, ':').after.value, ':').before
  {
    var parts := Split(s, ':');
    if |parts| > 1 then
      var i := IndexOf(s, ':');
      assert parts == [s[..i]] + Split(s[i + 1..], ':');
      CutAgreesWithSplit(s[i + 1..], ':');
      Pair(parts[0], parts[1])
    else Pair(parts[0], missing)
  }

  /** `letz`: the variable name is the text before the first colon, the type
      tag the text after it up to the next colon, and "string" when there is
      no colon at all. */
  function ParseLetz(attr: string): Pair
  {
    SplitPair(attr, "string")
  }

  /** Writing a binding as `name:type`, or as a bare `name`, and parsing it
      gives the name and type back. */
  lemma LetzRoundTrip(name: string, tag: string)
    requires ':' !in name && ':' !in tag
    ensures ParseLetz(name + ":" + tag) == Pair(name, tag)
    ensures ParseLetz(name) == Pair(name, "string")
  {
    assert name + ":" + tag == name + [':'] + tag;
    CutUnique(name + ":" + tag, ':', name, tag);
  }

  /** `togglez-class`: the selector before the first colon and the class
      after it; with no colon the class is the undefined value, which the
      class list reads as the text "undefined". */
  function ParseToggleClass(attr: string): Pair
  {
    SplitPair(attr, "undefined")
  }

  /** A `setz` or `getz` target that names an element rather than a state
      variable: it starts with `#` or `.`. */
  predicate IsSelectorRef(target: string)
  {
    StartsWith(target, "#") || StartsWith(target, ".")
  }

  /** `setz` splits at the first colon only, so an expression keeps its own
      colons: `result:a + b:c` targets `result` with expression `a + b:c`. */
  lemma SetzKeepsLaterColons()
    ensures CutAtFirst("result:a + b:c", ':') == Cut("result", Some("a + b:c"))
  {
    CutUnique("result:a + b:c", ':', "result", "a + b:c");
  }

  /** A `fetchz` attribute split at its last colon. */
  datatype FetchTarget = FetchTarget(url: string, varName: string)

  /** `fetchz`: the URL is the text before the last colon and the variable
      name the text after it; no colon, an empty URL or an empty name is an
      error and gives nothing. */
  function ParseFetchz(attr: string): (r: Option<FetchTarget>)
    ensures r.Some? ==> r.value.url + ":" + r.value.varName == attr
    ensures r.Some? ==> r.value.url != [] && r.value.varName != [] && ':' !in r.value.varName
  {
    var i := LastIndexOf(attr, ':');
    if i == -1 then None
    else
      var url, varName := attr[..i], attr[i + 1..];
      assert attr == url + [':'] + varName;
      if url == [] || varName == [] then None else Some(FetchTarget(url, varName))
  }

  /** `fetchz` is rejected exactly when there is no colon, the attribute ends
      with a colon, or its only colon is its first character. */
  lemma FetchzRejects(attr: string)
    ensures ParseFetchz(attr).None? <==>
      (|| ':' !in attr
       || attr[|attr| - 1] == ':'
       || (attr[0] == ':' && ':' !in attr[1..]))
  {
    if ':' in attr {
      var i := LastIndexOf(attr, ':');
      if attr[0] == ':' && ':' !in attr[1..] {
        assert i == 0;
      }
      if i == 0 {
        assert attr[1..] == attr[i + 1..];
      }
    }
  }

  /** Any split `url:var` with a non-empty URL and a non-empty, colon-free
      variable name is the one `fetchz` finds. */
  lemma FetchzFindsLastColon(url: string, varName: string)
    requires url != [] && varName != [] && ':' !in varName
    ensures ParseFetchz(url + ":" + varName) == Some(FetchTarget(url, varName))
  {
    var attr := url + ":" + varName;
    assert attr[|url|] == ':';
    assert attr[|url| + 1..] == varName;
    var i := LastIndexOf(attr, ':');
    assert i == |url|;
    assert attr[..i] == url;
  }

  // ---------------------------------------------------------------------
  // Which elements `updateView(p)` rewrites

  /** `[getz="p"]`. */
  predicate GetzIs(attrs: map<string, string>, p: string)
  {
    "getz" in attrs && attrs["getz"] == p
  }

  /** `getz` starting with `p.` — the nested paths under `p`. */
  predicate GetzUnder(attrs: map<string, string>, p: string)
  {
    "getz" in attrs && StartsWith(attrs["getz"], p + ".")
  }

  /** The built library's `letz` test: `[letz^="p"]` whose name, the text
      before the first colon, is `p`. A name equal to `p` already starts
      with `p`, so for a non-empty `p` the prefix selector adds nothing to
      the test; an empty prefix selects no element at all. */
  predicate LetzNamed(attrs: map<string, string>, p: string)
  {
    p != [] && "letz" in attrs && ParseLetz(attrs["letz"]).first == p
  }

  /** The earlier script's `letz` test: `[letz="p"]`, the whole attribute. */
  predicate LetzIs(attrs: map<string, string>, p: string)
  {
    "letz" in attrs && attrs["letz"] == p
  }

  /** The built library refreshes a `letz` element for `p` exactly when `p`
      is non-empty, holds no colon, and the attribute is `p` or starts with
      `p:`. */
  lemma {:induction false} LetzNamedIff(attrs: map<string, string>, p: string)
    requires "letz" in attrs
    ensures LetzNamed(attrs, p) <==> p != [] && ':' !in p && (attrs["letz"] == p || StartsWith(attrs["letz"], p + ":"))
  {
    var a := attrs["letz"];
    var cut := CutAtFirst(a, ':');
    if ':' !in p && StartsWith(a, p + ":") {
      assert a == p + [':'] + a[|p| + 1..];
      CutUnique(a, ':', p, a[|p| + 1..]);
    }
    if LetzNamed(attrs, p) && a != p {
      assert cut.before == p;
      assert a == p + [':'] + cut.after.value;
      assert a[..|p| + 1] == p + ":";
    }
  }

  /** `count:number` is refreshed by the built library for `count`. */
  lemma TypedLetzRefreshed()
    ensures LetzNamed(map["letz" := "count:number"], "count")
  {
    assert "count:number" == "count" + ":" + "number";
    LetzRoundTrip("count", "number");
  }

  /** `counter` is not refreshed for `count`, though `[letz^="count"]`
      selects it. */
  lemma LongerLetzNotRefreshed()
    ensures !LetzNamed(map["letz" := "counter"], "count")
  {
    assert ParseLetz("counter").first == "counter" by {
      assert ':' !in "counter";
      LetzRoundTrip("counter", "");
    }
    assert "counter" != "count" by { assert |"counter"| != |"count"|; }
  }

  /** The earlier script compares the whole attribute, so a typed binding
      `n:number` is never refreshed for `n`, while the built library
      refreshes it. */
  lemma TypedLetzOnlyRefreshedByBuild()
    ensures !LetzIs(map["letz" := "n:number"], "n")
    ensures LetzNamed(map["letz" := "n:number"], "n")
  {
    assert ParseLetz("n:number").first == "n" by {
      assert "n:number" == "n" + ":" + "number";
      LetzRoundTrip("n", "number");
    }
    assert "n:number" != "n" by { assert |"n:number"| != |"n"|; }
  }
}
