# gen-z.js binder, modelled in Dafny

gen-z.js is an attribute-driven DOM binder. A single `GenZ` object keeps a
state object behind a `Proxy` whose `set` trap stores the value and then
calls `updateView(key)`. At startup it binds two-way `letz="name[:type]"`
elements and read-only `getz="path"` elements. It also installs click, input
and hover handlers for `setz`, `fetchz`, `togglez`, `togglez-class`, `showz`,
`hidez`, `clearz`, `submitz` and `hoverz`.

The class ships in two variants:
- the built library `dist/gen-z.min.js`;
- the earlier `script.js`, whose `updateView` writes raw values and matches only whole attributes.

The model covers both. `View.Build` selects the variant, and every place where they differ is stated per build.

Layout, one module per file:

- `text.dfy`, module `JsText`: the JavaScript string operations the binder
  relies on.
  - `split` with a one-character separator.
  - `split(/:(.*)/s)`, modelled as `CutAtFirst`.
  - `indexOf` and `lastIndexOf`.
  - ASCII `toLowerCase` and `toUpperCase`.
  - `trim`.
  - Decimal spelling of integers.
- `values.dfy`, module `JsValues`: the value datatype (string, integer, NaN,
  boolean, null, undefined, object) and the `String(v)` and `Number(v)`
  conversions. `Host` bundles three things the binder calls but does not
  define: `JSON.parse`, `JSON.stringify(v, null, 2)` and the expression
  evaluator built with `new Function`.
- `coerce.dfy`, module `Coerce`: `_castToType`.
- `format.dfy`, module `Format`: `_formatValue` and `_getNestedProperty`.
  The latter is both a function and the loop method that mirrors the source.
- `attributes.dfy`, module `Attributes`: the attribute parsers for `letz`,
  `setz`, `fetchz` and `togglez-class`, and the `getz`/`letz` tests that
  `updateView` applies.
- `dom.dfy`, module `Dom`: the page as a sequence of element records.
  - `querySelector` over `#id`, `.class` and tag selectors.
  - What assigning `textContent` or `value` stores: null and undefined clear
    `textContent`; `value`, as for `input` and `textarea`, clears for null
    but stores "undefined" for undefined.
  - `style.display` toggling.
  - `classList`: `add`, `remove` and `toggle` throw on an empty token or one
    containing white space, so the model leaves the class set unchanged.
- `view.dfy`, module `View`: `updateView` of both variants.
  - Each is a per-element refresh function.
  - The loop methods follow the source's consecutive `forEach` passes and are
    proved equal to those functions.
- `binder.dfy`, module `Binder`: the `GenZ` class.
  - Its fields are the state map, the page, the log of `updateView` calls,
    the element-to-element `getz` listeners ("mirrors"), and the log of form
    `reset`/`submit` calls.
  - Every method is proved against a function on a `BinderState` snapshot, and the
    lemmas about those functions state what the source promises.
- `scenarios.dfy`, module `Scenarios`: two pages run end to end through the
  class: typing into a two-way field, and a `setz` counter clicked twice.

`_castToType` (`script.js:95-116`) and the handlers for `togglez`,
`togglez-class`, `showz`, `hidez`, `clearz`, `submitz` and `hoverz` are
written identically in both files, so one definition serves both variants.
The table cites one of the two places.

Coercion can throw. The `boolean` branch of `_castToType` calls
`toLowerCase` on any input that is not a boolean, so it throws for
undefined, null, numbers and objects. The model follows the code:
- `Coerce.CastToType` requires `!CastThrows`.
- The `letz` input listener, which can read undefined from an element without
  a value, writes nothing in that case (`Binder.InputWithoutValueWritesNothing`).
- At startup the model's initial value is always a string or a boolean, so
  the exception cannot occur there (`Binder.InitialNeverThrows`). This rests
  on every `value` property being text; see "## Left out" for the elements
  whose `value` is a number.

## Model

| member | source | states |
|---|---|---|
| JsText.NatToString | dist/gen-z.min.js:150 | `String(n)` of a natural number is a non-empty run of decimal digits that starts with '0' exactly when n is 0 |
| JsText.DigitsRoundTrip | dist/gen-z.min.js:134 | reading back the decimal spelling of n gives n |
| JsText.LowerIdempotent | dist/gen-z.min.js:132 | lower-casing an already lower-cased type tag changes nothing |
| JsText.TrimStart | dist/gen-z.min.js:134 | `Number` skips exactly the leading white space: the result is a suffix of the input, everything cut off is white space, and the result does not start with white space |
| JsText.TrimEnd | dist/gen-z.min.js:134 | `Number` skips exactly the trailing white space: the result is a prefix of the input, everything cut off is white space, and the result does not end with white space |
| JsText.IndexOf | dist/gen-z.min.js:178 | the first position of the separator: it holds the separator and no earlier position does |
| JsText.LastIndexOf | dist/gen-z.min.js:57 | -1 exactly when the character is absent; otherwise a position holding it with none after it |
| JsText.Split | dist/gen-z.min.js:112 | `split(":")` gives at least one piece, no piece holds the separator, and there is a single piece exactly when the separator is absent |
| JsText.SplitThenJoin | dist/gen-z.min.js:239 | joining the pieces of a split with the separator gives the original string |
| JsText.JoinThenSplit | dist/gen-z.min.js:239 | splitting a join of separator-free pieces gives the pieces back |
| JsText.SplitAtSeparator | dist/gen-z.min.js:239 | splitting `head.rest`, with no separator in head, gives head followed by the pieces of rest |
| JsText.CutAtFirst | dist/gen-z.min.js:178 | `split(/:(.*)/s)`: the head holds no colon, the tail is absent exactly when there is no colon, and head + ":" + tail is the input |
| JsText.CutAgreesWithSplit | dist/gen-z.min.js:178 | the head of the cut is the first piece of `split(":")` |
| JsText.CutUnique | dist/gen-z.min.js:178 | any decomposition before + ":" + after with a colon-free head is the one the cut returns |
| JsValues.ToJsString | dist/gen-z.min.js:150 | `String(v)`: text as it is, one of the model's integers in decimal, with every digit, "NaN", "true" or "false", "null", "undefined", and "[object Object]" for an object |
| JsValues.Property | dist/gen-z.min.js:245 | `result[key]` on a value that is not null or undefined: an object's own property, a string's `length` or one of its characters, and undefined otherwise |
| JsValues.StringToNumber | dist/gen-z.min.js:134 | `Number(text)` is always a number or NaN, and blank text is 0 |
| JsValues.ToNumber | dist/gen-z.min.js:134 | `Number(v)` is a number or NaN for every value |
| JsValues.NumberRoundTrip | dist/gen-z.min.js:134 | `Number(String(n))` is n for every integer n of the model (JS numbers are exact integers only up to 2^53) |
| Coerce.CastToType | dist/gen-z.min.js:131-152 | the result has the kind of its case-folded tag: number or NaN, boolean, null, undefined, the parsed value or an empty object, and a string for any other tag; only the throwing `boolean` inputs are excluded |
| Coerce.CastIgnoresTagCase | dist/gen-z.min.js:132 | a tag and its lower-case form coerce alike |
| Coerce.BooleanCast | dist/gen-z.min.js:135-137 | a boolean passes through; a string gives true exactly when its lower-case form is "true" or it is empty |
| Coerce.FixedTagsIgnoreInput | dist/gen-z.min.js:138-141 | `null` and `undefined` give their fixed value whatever the input |
| Coerce.ObjectCastNeverFails | dist/gen-z.min.js:142-148 | `object` gives the parsed value, or an empty object when the text does not parse |
| Coerce.UnknownTagStringifies | dist/gen-z.min.js:149-150 | any other tag gives `String(value)` |
| Coerce.NumberCastRoundTrip | dist/gen-z.min.js:133-134 | coercing the spelling of an integer of the model with `number` gives the integer (JS rounds above 2^53) |
| Coerce.StringCastKeepsText | dist/gen-z.min.js:149-150 | the default `string` tag leaves text unchanged |
| Format.WalkPath | dist/gen-z.min.js:241-246 | the loop over the keys: stop as soon as the current value is null or undefined, otherwise step to its property |
| Format.NestedProperty | dist/gen-z.min.js:237-248 | `_getNestedProperty(state, path)`: the state itself for an empty path, undefined when the walk stops early, and the formatted final value otherwise |
| Format.FormatValue | dist/gen-z.min.js:250-258 | null and undefined become "", an object its JSON text, every other value is returned unchanged |
| Format.FormatIdempotent | dist/gen-z.min.js:250-258 | formatting twice is formatting once |
| Format.GetNestedProperty | dist/gen-z.min.js:237-248 | the loop returns the state itself for an empty path, undefined when the walk is cut short, and the formatted final value otherwise |
| Format.StoppedIffNullishPrefix | dist/gen-z.min.js:241-246 | a walk yields undefined exactly when some proper prefix of the path leads to null or undefined |
| Format.SingleKeyPath | dist/gen-z.min.js:237-248 | a path without a dot reads the formatted value of that key |
| Format.DottedPathStartsAtHead | dist/gen-z.min.js:239-246 | reading `p.rest` walks rest from the value stored under p |
| Format.NestedPathReadsOnlyItsHead | dist/gen-z.min.js:220-223 | a path `p.rest` depends on the state only through the key p, which is why writing p re-resolves exactly the paths under `p.` |
| Format.TwoKeyPath | dist/gen-z.min.js:237-248 | `p.key` reads undefined when p holds null or undefined, otherwise the formatted property key of the value under p; a missing property of an object reads "" and raises nothing |
| Attributes.ParseLetz | dist/gen-z.min.js:112 | `[varName, type = "string"] = letz.split(":")` |
| Attributes.ParseToggleClass | dist/gen-z.min.js:276-278 | `[targetSelector, className] = attr.split(":")`, with the class undefined when there is no colon |
| Attributes.IsSelectorRef | dist/gen-z.min.js:181 | a `setz` or `getz` target names an element when it starts with `#` or `.` |
| Attributes.GetzIs | dist/gen-z.min.js:215 | the selector `[getz="p"]`: the attribute equals p |
| Attributes.GetzUnder | dist/gen-z.min.js:220 | the nested-path selector: the attribute starts with `p.` |
| Attributes.LetzNamed | dist/gen-z.min.js:226-227 | the prefix selector `[letz^="p"]` together with the name test; an empty p selects nothing |
| Attributes.LetzIs | script.js:182 | the earlier script's selector `[letz="p"]`: the whole attribute equals p |
| Attributes.SplitPair | dist/gen-z.min.js:112 | `[a, b = d] = s.split(":")`: a is the text before the first colon, b the text between the first and second colons, or d when there is no colon |
| Attributes.LetzRoundTrip | dist/gen-z.min.js:111-112 | `name:type` parses to (name, type) and a bare `name` to (name, "string") |
| Attributes.SetzKeepsLaterColons | dist/gen-z.min.js:178 | `result:a + b:c` targets `result` with expression `a + b:c` |
| Attributes.ParseFetchz | dist/gen-z.min.js:56-74 | an accepted `fetchz` gives a non-empty URL and a non-empty colon-free name with url + ":" + name equal to the attribute |
| Attributes.FetchzRejects | dist/gen-z.min.js:59-74 | rejected exactly when there is no colon, the attribute ends in a colon, or its only colon is its first character |
| Attributes.FetchzFindsLastColon | dist/gen-z.min.js:57-67 | every `url:name` with non-empty parts and a colon-free name is parsed back to those parts |
| Attributes.LetzNamedIff | dist/gen-z.min.js:226-227 | a `letz` is refreshed for p exactly when p is non-empty, has no colon, and the attribute is p or starts with `p:` |
| Attributes.TypedLetzRefreshed | dist/gen-z.min.js:226-227 | `count:number` is refreshed for `count` |
| Attributes.LongerLetzNotRefreshed | dist/gen-z.min.js:226-227 | `counter` is not refreshed for `count`, although the prefix selector selects it |
| Attributes.TypedLetzOnlyRefreshedByBuild | script.js:182 | the earlier script does not refresh `n:number` for `n`; the built library does |
| Dom.TextOf | dist/gen-z.min.js:188 | what `textContent = v` stores: "" for null and undefined, `String(v)` otherwise |
| Dom.ValuePropOf | dist/gen-z.min.js:186 | what `value = v` stores on an `input` or `textarea`: "" for null, `String(v)` otherwise, so undefined is stored as "undefined" |
| Dom.ValueOf | dist/gen-z.min.js:163-165 | reading `el.value`: undefined exactly for an element without a value property, and otherwise the text of that property |
| Dom.WriteValueOrText | dist/gen-z.min.js:228-232 | the "value, or else text" write: an element with a value property changes only that property and reads back what the setter stored; any other element changes only its text, which becomes `TextOf(v)` |
| Dom.Matches | dist/gen-z.min.js:183 | an element matches `#id` by its id, `.class` by its class list and a tag name by its upper-case tag, for unescaped CSS identifiers only (ASCII letters, digits, `-`, `_` and any non-ASCII character) |
| Dom.FindFrom | dist/gen-z.min.js:183 | the first element at or after a position that the selector matches, with no match before it, or none when no later element matches |
| Dom.QuerySelector | dist/gen-z.min.js:183 | the first matching element in document order, or none when nothing matches |
| Dom.ToggledDisplay | dist/gen-z.min.js:268 | "none" becomes "", any other display becomes "none" |
| Dom.AddClass | dist/gen-z.min.js:351 | `classList.add`: the class joins the set, unless the token is invalid |
| Dom.RemoveClass | dist/gen-z.min.js:355 | `classList.remove`: the class leaves the set, unless the token is invalid |
| Dom.ToggleClass | dist/gen-z.min.js:281 | `classList.toggle`: the class leaves the set if present and joins it otherwise, unless the token is invalid |
| Dom.ToggleTwice | dist/gen-z.min.js:268 | toggling twice restores the display exactly when it was "" or "none" |
| Dom.HoverClass | script.js:282-288 | for a valid class token, after entering the class is present, after leaving it is absent whatever it was at first, and no other class changes |
| Dom.ToggleClassTwice | dist/gen-z.min.js:281 | toggling a class twice restores the class list |
| View.RefreshDist | dist/gen-z.min.js:215-234 | refreshing an element changes neither its tag, attributes, kind, display, classes nor checked state |
| View.DistView | dist/gen-z.min.js:211-235 | `updateView` keeps the page's elements and their shape |
| View.RefreshScript | script.js:175-189 | refreshing an element changes neither its tag, attributes, kind, display, classes nor checked state |
| View.ScriptView | script.js:175-189 | `updateView` keeps the page's elements and their shape |
| View.RenderView | dist/gen-z.min.js:211-235 | the page after `updateView` in either build has the same elements |
| View.ExactPass | dist/gen-z.min.js:215-217 | the first pass writes the formatted value into the text of each `getz` equal to p and leaves the rest |
| View.NestedPass | dist/gen-z.min.js:220-223 | the second pass writes each `getz` under `p.` its own nested read and leaves the rest |
| View.LetzPass | dist/gen-z.min.js:226-234 | the third pass writes the formatted value into each `letz` named p |
| View.ApplyDistView | dist/gen-z.min.js:211-235 | the three passes in order produce the refreshed page |
| View.ApplyScriptView | script.js:175-189 | the two passes in order produce the refreshed page |
| View.DistRefreshEffect | dist/gen-z.min.js:215-234 | an element bound to p in none of the three ways is unchanged; a `letz` named p gets the formatted value in its value or text; a `getz` equal to p or under `p.` gets its text rewritten unless a letz writes the text last |
| View.DistGetzShowsFreshRead | dist/gen-z.min.js:220-223 | a refreshed `getz` shows exactly the nested read of its whole path, as binding it afresh would |
| View.DistRefreshIdempotent | dist/gen-z.min.js:211-235 | refreshing twice with the same state is refreshing once |
| View.ScriptRefreshEffect | script.js:177-188 | only elements whose `getz` or `letz` equals p change, and they get the raw value |
| View.ScriptReadsDottedGetzFlat | script.js:132-135 | with only p holding {key: text}, the earlier script renders `getz="p.key"` from the flat key "p.key" and shows "", where the built library's nested read shows text |
| View.CountShownInInput | dist/gen-z.min.js:226-232 | after writing 5 under `count`, an input bound with `letz="count:number"` holds "5" |
| View.CountShownInDisplay | dist/gen-z.min.js:215-217 | after writing 5 under `count`, a `getz="count"` element shows "5" |
| Binder.Write | dist/gen-z.min.js:12-15 | a state write keeps the page's shape, the mirrors and the form log |
| Binder.WriteStoresOnlyKey | dist/gen-z.min.js:12-15 | a write stores the value under its key, leaves every other key, and appends exactly one `updateView` for that key, even when the value is unchanged |
| Binder.WriteShowsInGetz | script.js:177-179 | after a write, a plain `getz="key"` shows the new value, formatted in the built library and raw in the earlier script |
| Binder.Evaluate | dist/gen-z.min.js:199-209 | `_evaluateExpression`: the evaluator's value, or undefined when evaluation throws |
| Binder.InitialValue | dist/gen-z.min.js:114-115 | the starting value is `checked` for a checkbox, the value when it is non-empty, and the text otherwise |
| Binder.LetzStep | dist/gen-z.min.js:110-121 | binding one `letz` keeps the page's shape, the mirrors and the form log; an element without `letz` changes nothing, and one with it logs its name once and adds exactly that key |
| Binder.BindLetzUpTo | dist/gen-z.min.js:110-128 | binding the `letz` elements in order keeps the page's shape, the mirrors and the form log |
| Binder.LetzStepStores | dist/gen-z.min.js:114-121 | one `letz` step stores the coerced initial value under its name, and hides the element when it also has `hidez` |
| Binder.LetzStepKeepsOthers | dist/gen-z.min.js:116 | one `letz` step leaves the value of every other name as it was |
| Binder.BindLetzStepLog | dist/gen-z.min.js:110-116 | binding one more element adds its name, if it has one, to the end of the log and to the keys |
| Binder.BindLetzStepKeeps | dist/gen-z.min.js:110-116 | binding one more element leaves alone every name that element does not bind |
| Binder.BindLetzWritesEachName | script.js:74-80 | binding runs one `updateView` per `letz` element, for its name, in document order; the state then holds exactly the old keys plus the bound names; and each name holds the coerced initial value of the last element that binds it |
| Binder.BindLetzLog | dist/gen-z.min.js:110-116 | the `updateView` log after binding is the old log followed by the `letz` names in document order |
| Binder.BindLetzKeys | dist/gen-z.min.js:112-116 | a key is in the state after binding exactly when it was there before or is a bound name |
| Binder.BindLetzKeepsLast | dist/gen-z.min.js:110-116 | the elements after the last `letz` for a name leave that name's value as that element stored it |
| Binder.BindLetzKeepsFrom | dist/gen-z.min.js:110-116 | a run of elements none of which binds a name with `letz` leaves that name's value unchanged |
| Binder.BindLetzValues | dist/gen-z.min.js:110-116 | after binding, a name holds the coerced initial value of the last `letz` element that binds it, read from that element as the earlier bindings left it |
| Binder.InitialNeverThrows | dist/gen-z.min.js:114-116 | coercing a starting value never throws, whatever the tag |
| Binder.GetzStep | dist/gen-z.min.js:157-172 | binding a `getz` never writes the state and only installs mirrors between elements of the page |
| Binder.BindGetzUpTo | dist/gen-z.min.js:157-172 | binding the `getz` elements never writes the state and only installs mirrors between elements of the page |
| Binder.BindGetzMirrorsFromSelectors | dist/gen-z.min.js:159-167 | every new mirror targets an element whose `getz` is a selector |
| Binder.GetzStepMirrors | dist/gen-z.min.js:159-167 | one `getz` step adds at most a mirror onto its own element, and only when its `getz` is a selector |
| Binder.DistGetzStepEffect | dist/gen-z.min.js:157-172 | in the built library one `getz` step writes only its own element, and a state source shows the nested read of its path |
| Binder.DistGetzBindShowsPaths | dist/gen-z.min.js:168-171 | after binding, each state `getz` shows the nested read of its path |
| Binder.Edit | dist/gen-z.min.js:124-125 | the browser's edit before the listener runs: a checkbox takes the new checked state, an element with a value the typed text, and any other element is unchanged |
| Binder.RawInput | dist/gen-z.min.js:125 | what the `letz` listener reads: a boolean exactly for a checkbox, undefined exactly for an element that is neither a checkbox nor has a value, and otherwise `el.value` |
| Binder.RawInputReadsEdit | dist/gen-z.min.js:124-125 | after the user's edit the listener reads back exactly what was entered: the new checked state, the typed text, or undefined |
| Binder.Mirrored | dist/gen-z.min.js:164-166 | the mirror listeners change only the text of elements |
| Binder.MirroredLeaves | dist/gen-z.min.js:164-166 | an element that no mirror on the source targets keeps its text |
| Binder.MirroredCopies | dist/gen-z.min.js:164-166 | every element a mirror on the source targets ends up showing the source's value as its text |
| Binder.InputSpec | dist/gen-z.min.js:124-127 | an input keeps the mirrors valid and the form log unchanged |
| Binder.InputEchoesTypedText | script.js:88-91 | typing into a field bound by an untyped `letz` stores the text and the field keeps showing it, in both builds |
| Binder.InputShowsInGetz | dist/gen-z.min.js:124-127 | what is typed appears at once in every `getz` bound to the same name that no mirror on the field overwrites |
| Binder.InputStoresTick | dist/gen-z.min.js:125-126 | a checkbox bound with `name:boolean`, the tag in any case, stores its new checked state |
| Binder.InputWithoutValueWritesNothing | dist/gen-z.min.js:124-137 | on an element without a value, a `boolean` binding's coercion throws and the input writes no state and runs no `updateView` |
| Binder.SetzSpec | dist/gen-z.min.js:175-196 | a `setz` click keeps the page's shape, the mirrors and the form log |
| Binder.SetzSelectorLeavesState | script.js:145-154 | a selector target never writes the state or runs `updateView`; the element found gets the evaluated expression in its value, or in its text when it has no value property; no other element changes, and nothing changes when none is found |
| Binder.SetzWritesState | script.js:155-158 | `setz="name:expression"` is the state write of the evaluated expression under name |
| Binder.FetchzSpec | dist/gen-z.min.js:54-86 | a settled `fetchz` keeps the page's shape, the mirrors and the form log |
| Binder.FetchzWritesOnlyOnSuccess | dist/gen-z.min.js:59-84 | the state is written exactly when the attribute parses and the request succeeds, under the name after the last colon; otherwise nothing changes |
| Binder.TogglezSpec | dist/gen-z.min.js:263-271 | `togglez`: the first matching element's display is toggled, and nothing changes when none matches |
| Binder.ToggleClassSpec | dist/gen-z.min.js:274-284 | `togglez-class`: the parsed class is toggled on the element the parsed selector finds |
| Binder.DisplaySpec | dist/gen-z.min.js:290-309 | `showz` and `hidez`: the matched element's display is set to "" or "none" |
| Binder.DisplayHandlers | script.js:195-241 | `togglez` twice restores the page exactly when the display was "" or "none" or no element matched; `showz`/`hidez` are idempotent and set the display; no other element changes |
| Binder.ClearzSpec | dist/gen-z.min.js:315-330 | `clearz`: a matched form is reset, another matched element loses its value, or its text when it has no value |
| Binder.SubmitzSpec | dist/gen-z.min.js:333-341 | `submitz`: a matched form is submitted, and nothing happens otherwise |
| Binder.SubmitzLogsOnce | dist/gen-z.min.js:333-341 | `submitz` on a matched form logs one submission and changes neither the state, the page, the mirrors nor the update log; a second click submits again; with no matched form nothing changes |
| Binder.ClearzEmpties | script.js:247-262 | a matched non-form element loses its value, or its text when it has no value, and clearing twice is clearing once; a missing target changes nothing |
| Binder.Startup | dist/gen-z.min.js:7-40 | startup keeps the page's shape, installs only valid mirrors and calls no form method |
| Binder.GenZ.constructor | dist/gen-z.min.js:7-40 | the new object's page is the page after binding `letz` and then `getz` elements from an empty state |
| Binder.GenZ.Set | dist/gen-z.min.js:12-15 | the Proxy write: the new object state is `Write` of the old one |
| Binder.GenZ.UpdateView | dist/gen-z.min.js:211-235 | the page becomes the build's refreshed page and the key is logged |
| Binder.GenZ.BindLetz | dist/gen-z.min.js:109-129 | the loop over the elements gives the state, page and log of `BindLetzUpTo` |
| Binder.GenZ.BindLetzAt | dist/gen-z.min.js:110-127 | one `forEach` callback performs `LetzStep` |
| Binder.GenZ.BindGetz | dist/gen-z.min.js:157-172 | the loop over the elements gives the page, log and mirrors of `BindGetzUpTo` |
| Binder.GenZ.BindGetzAt | script.js:121-136 | one `forEach` callback performs `GetzStep` |
| Binder.GenZ.Input | dist/gen-z.min.js:124-127 | the object after an input is `InputSpec` of the object before |
| Binder.GenZ.CopyToMirrors | dist/gen-z.min.js:164-166 | running the mirror listeners on the source gives `Mirrored` and changes nothing else |
| Binder.GenZ.SetzClick | dist/gen-z.min.js:176-195 | a click on `setz` gives `SetzSpec` |
| Binder.GenZ.FetchzClick | dist/gen-z.min.js:55-85 | a settled `fetchz` gives `FetchzSpec` in the built library and changes nothing in the earlier script |
| Binder.GenZ.TogglezClick | dist/gen-z.min.js:263-271 | flips the display of the first matching element |
| Binder.GenZ.ToggleClassClick | dist/gen-z.min.js:274-284 | toggles the parsed class on the element the parsed selector finds |
| Binder.GenZ.ShowzClick | dist/gen-z.min.js:290-298 | sets the matched element's display to "" |
| Binder.GenZ.HidezClick | dist/gen-z.min.js:301-309 | sets the matched element's display to "none" |
| Binder.GenZ.ClearzClick | dist/gen-z.min.js:315-330 | logs a reset of a matched form, and otherwise clears the value or the text |
| Binder.GenZ.SubmitzClick | dist/gen-z.min.js:333-341 | logs a submit of a matched form and does nothing otherwise |
| Binder.GenZ.MouseEnter | dist/gen-z.min.js:350-352 | adds the `hoverz` class to the element |
| Binder.GenZ.MouseLeave | dist/gen-z.min.js:354-356 | removes the `hoverz` class from the element |
| Scenarios.TypingStartup | dist/gen-z.min.js:31-40 | after startup, `<input letz="name"><p getz="name">` keeps both elements and installs no mirror |
| Scenarios.TypeInto | dist/gen-z.min.js:124-127 | typing into the field of such a page stores the text under name and shows it in the paragraph, in both builds |
| Scenarios.TypingScenario | dist/gen-z.min.js:124-127 | typing "Ada" stores "Ada" and shows "Ada" |
| Scenarios.CounterStartup | dist/gen-z.min.js:31-40 | after startup, `<button setz="name:expression"><span getz="name">` has an empty state and keeps both elements |
| Scenarios.CounterClick | dist/gen-z.min.js:176-194 | a click whose expression evaluates to n + 1 takes the counter from n to n + 1 and the `getz` element shows n + 1 |
| Scenarios.Click | dist/gen-z.min.js:175-196 | clicking the counter button of a live object moves its state from n to n + 1 and returns the text the display then shows |
| Scenarios.CounterStart | dist/gen-z.min.js:7-40 | a fresh object on the counter page with the counter set to 0 keeps both elements |
| Scenarios.CounterScenario | dist/gen-z.min.js:175-196 | starting from `count = 0`, the span shows "1" after one click and "2" after the second, in both builds |

## Left out

- `alertz`, `alertz-text` and `clickz` (with `executeAction`) are left out. They only show browser dialogs or run arbitrary code built with `new Function`, and neither touches the state or the page in a way the binder controls.
- `_evaluateExpression` is not modelled as code. It is the `Host.evaluate` parameter, which receives the expression text and the state; a thrown error gives undefined (`Binder.Evaluate`).
- `JSON.parse` and `JSON.stringify` are abstract parameters of `Host`.
- `fetch` and `response.json()` are network I/O. `Binder.GenZ.FetchzClick` receives the settled outcome as a parameter, and the asynchronous timing of the write is not modelled.
- `console.error` diagnostics are left out. Each error path is modelled by what it does to the state and page, which is nothing.
- Startup timing (`readyState`, `DOMContentLoaded`) is left out. The constructor binds immediately, as the source does on a loaded page.
- The bindings that only install listeners (`togglez`, `showz`, `hidez`, `clearz`, `submitz`, `hoverz`, `setz`, `fetchz`) have no startup step. Their listeners are the click and hover methods of `Binder.GenZ`.
- What `form.reset()` and `form.submit()` do inside the form is not modelled. The calls are only recorded in `forms`.
- JsValues.StringToNumber: numbers are integers plus NaN. Fractions, exponents, hexadecimal (`0x`), binary (`0b`), octal (`0o`) and `Infinity` text read as NaN rather than as the floating-point value `Number` would give, because floating point is out of scope.
- JsValues.ToJsString: numbers are exact, unbounded integers printed with every digit. JS rounds integers above 2^53 (`Number("9007199254740993")` is 9007199254740992, so a `number`-typed `letz` field shows …992) and writes magnitudes of 10^21 or more with an exponent (`String(1e21)` is "1e+21"); neither is modelled.
- JsValues.Property: arrays and properties inherited from `Object.prototype` are absent. The state and objects have own properties only, and string `length` counts characters rather than UTF-16 code units.
- JsText.ToLower: only ASCII letters are case-mapped. Other Unicode case mappings are not modelled.
- Dom.ValuePropOf: every element with a value property is written as `input` and `textarea` are, where null becomes "". On `output`, `button`, `option`, `data` and `param` the setter stores "null", and on `li`, `progress` and `meter` it stores 0; `setz="#o:null"` on an `<output id="o">` (dist/gen-z.min.js:185-186) and raw state values written into `letz` elements by the earlier script (script.js:184) reach these cases. The model has one kind of value property, and the `type` sanitisation of `input` (numbers, colours, dates) is not modelled either.
- Dom.Matches: CSS escapes in identifiers (`#a\:b`, `.\31 col`) are not understood, so such a selector matches nothing in the model, while the browser decodes the escape and matches.
- Dom.QuerySelector: only `#id`, `.class` and bare tag selectors are understood, and any other selector matches nothing. The browser would evaluate it, or reject it.
- Dom.QuerySelector: a selector the browser rejects, such as `#1a` or `.2col`, throws a SyntaxError. The model matches nothing instead. In a click handler the effect is the same: the handler ends and changes nothing. In a startup `getz` (dist/gen-z.min.js:161) the exception ends the remaining `getz` bindings and the rest of `bindEvents`, whereas the model skips that element and goes on. Exceptions that end startup are not modelled.
- Quoting inside the selectors `updateView` builds from the key is not modelled. A key containing `"` makes `querySelectorAll` throw, and during startup that exception ends the `letz` bindings and the rest of `bindEvents`. The model compares strings directly.
- Binder.InitialNeverThrows: `Element.value` is text in the model. In the browser the `value` of `li`, `progress` and `meter` is a number, so `<li value="5" letz="x:boolean">` makes `toLowerCase` throw at dist/gen-z.min.js:137. That TypeError escapes the `forEach` at dist/gen-z.min.js:110 and ends startup. The model has no numeric `value` and so never reaches this case.
- The selector `[getz^="p."` in `dist/gen-z.min.js:220` lacks its closing `]`. The model uses the intended test, "starts with `p.`", which is also how CSS error recovery closes it at the end of the string.
- Binder.GenZ.Input: the browser edit is modelled for checkboxes and for elements with a `value`. Edits of other elements, such as `contenteditable`, leave the element unchanged in the model.
- Dom.ValidToken: `classList` methods throw on an empty token or one containing white space. The model leaves the class set unchanged instead, which matches the visible effect of the aborted handler.
- An element's text is a single field. Child elements and the difference between `textContent` and `innerText` are not modelled.
