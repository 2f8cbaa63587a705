/** Reading the state for display: `_formatValue`, and `_getNestedProperty`,
    which follows a dotted path such as `user.name` into the state. */
module Format {
  import opened JsText
  import opened JsValues

  /** `this.state[key]`: the stored value, or undefined for a key never written. */
  function Lookup(state: map<string, Value>, key: string): Value
  {
    if key in state then state[key] else Undef
  }

  /** A value `_formatValue` hands back unchanged. */
  predicate Scalar(v: Value) { v.Str? || v.Num? || v.NaN? || v.Bool? }

  /** `_formatValue`: null and undefined become the empty string, an object
      becomes its JSON text, and every other value is returned as it is. */
  function FormatValue(v: Value, host: Host): (r: Value)
    ensures Scalar(r)
    ensures Scalar(v) ==> r == v
    ensures Nullish(v) ==> r == Str("")
    ensures v.Obj? ==> r == Str(host.stringifyJson(v))
  {
    if Nullish(v) then Str("")
    else if v.Obj? then Str(host.stringifyJson(v))
    else v
  }

  /** Formatting twice is formatting once. */
  lemma FormatIdempotent(v: Value, host: Host)
    ensures FormatValue(FormatValue(v, host), host) == FormatValue(v, host)
  {
  }

  /** Where a walk down a path ends: at a value once every key has been
      followed, or cut short because a null or undefined value was met
      while keys remained. */
  datatype Walk = Reached(v: Value) | Stopped

  /** The loop of `_getNestedProperty`: before each key, stop if the current
      value is null or undefined, otherwise step to its property. */
  function WalkPath(v: Value, keys: seq<string>): Walk
    decreases |keys|
  {
    if keys == [] then Reached(v)
    else if Nullish(v) then Stopped
    else WalkPath(Property(v, keys[0]), keys[1..])
  }

  /** `_getNestedProperty(state, path)`: the state object itself for an
      empty path; otherwise undefined if the walk was cut short, and the
      formatted final value if it was not. */
  function NestedProperty(state: map<string, Value>, path: string, host: Host): Value
  {
    if path == [] then Obj(state)
    else Finish(WalkPath(Obj(state), Split(path, '.')), host)
  }

  /** `_getNestedProperty`, with its loop over the keys of the path. */
  method GetNestedProperty(state: map<string, Value>, path: string, host: Host) returns (r: Value)
    ensures r == NestedProperty(state, path, host)
  {
    if path == [] {
      return Obj(state);
    }
    var keys := Split(path, '.');
    var result := Obj(state);
    var i := 0;
    while i < |keys|
      invariant 0 <= i <= |keys|
      invariant WalkPath(result, keys[i..]) == WalkPath(Obj(state), keys)
    {
      if Nullish(result) {
        return Undef;
      }
      assert keys[i..][1..] == keys[i + 1..];
      result := Property(result, keys[i]);
      i := i + 1;
    }
    r := FormatValue(result, host);
  }

  /** A walk is cut short exactly when some prefix of the path leads to null
      or undefined before the last key has been followed. */
  lemma {:induction false} StoppedIffNullishPrefix(v: Value, keys: seq<string>)
    ensures WalkPath(v, keys) == Stopped <==>
      exists k :: 0 <= k < |keys| && WalkPath(v, keys[..k]).Reached? && Nullish(WalkPath(v, keys[..k]).v)
    decreases |keys|
  {
    if keys != [] {
      assert WalkPath(v, keys[..0]) == Reached(v);
      if !Nullish(v) {
        var next := Property(v, keys[0]);
        StoppedIffNullishPrefix(next, keys[1..]);
        forall k | 1 <= k <= |keys|
          ensures WalkPath(v, keys[..k]) == WalkPath(next, keys[1..][..k - 1])
        {
          assert keys[..k][1..] == keys[1..][..k - 1];
        }
        if WalkPath(v, keys) == Stopped {
          var j :| 0 <= j < |keys[1..]| && WalkPath(next, keys[1..][..j]).Reached? && Nullish(WalkPath(next, keys[1..][..j]).v);
          assert WalkPath(v, keys[..j + 1]) == WalkPath(next, keys[1..][..j]);
        } else {
          forall k | 0 <= k < |keys| && WalkPath(v, keys[..k]).Reached?
            ensures !Nullish(WalkPath(v, keys[..k]).v)
          {
            if k > 0 {
              assert WalkPath(v, keys[..k]) == WalkPath(next, keys[1..][..k - 1]);
            }
          }
        }
      }
    }
  }

  /** A path with no dot reads the state key of that name, formatted: a
      plain `getz="count"` shows what the exact refresh writes. */
  lemma SingleKeyPath(state: map<string, Value>, key: string, host: Host)
    requires key != [] && '.' !in key
    ensures NestedProperty(state, key, host) == FormatValue(Lookup(state, key), host)
  {
    assert Split(key, '.') == [key];
    assert WalkPath(Obj(state), [key]) == WalkPath(Lookup(state, key), []);
  }

  /** How `_getNestedProperty` ends a walk: undefined if it was cut short,
      the formatted value otherwise. */
  function Finish(w: Walk, host: Host): Value
  {
    match w
    case Stopped => Undef
    case Reached(v) => FormatValue(v, host)
  }

  /** Reading `p.rest`, with no dot in `p`, walks the rest of the path from
      the value stored under `p`. */
  lemma {:induction false} DottedPathStartsAtHead(state: map<string, Value>, p: string, rest: string, host: Host)
    requires '.' !in p
    ensures NestedProperty(state, p + "." + rest, host) == Finish(WalkPath(Lookup(state, p), Split(rest, '.')), host)
  {
    var path := p + "." + rest;
    assert path != [];
    SplitDottedPath(p, rest);
    WalkFromState(state, p, Split(rest, '.'));
  }

  /** A path `p.rest`, with no dot in `p`, splits into `p` and the keys of `rest`. */
  lemma SplitDottedPath(p: string, rest: string)
    requires '.' !in p
    ensures Split(p + "." + rest, '.') == [p] + Split(rest, '.')
  {
    assert p + "." + rest == p + ['.'] + rest;
    SplitAtSeparator(p, '.', rest);
  }

  /** The first key of a walk from the state object reads that key. */
  lemma WalkFromState(state: map<string, Value>, p: string, tail: seq<string>)
    ensures WalkPath(Obj(state), [p] + tail) == WalkPath(Lookup(state, p), tail)
  {
    assert ([p] + tail)[1..] == tail;
  }

  /** A path `p.rest`, with no dot in `p`, depends on the state only through
      the value stored under `p`: so when `p` is written, the `getz`
      elements whose path starts with `p.` are the nested ones to refresh. */
  lemma NestedPathReadsOnlyItsHead(
    s1: map<string, Value>, s2: map<string, Value>, p: string, rest: string, host: Host)
    requires '.' !in p
    requires Lookup(s1, p) == Lookup(s2, p)
    ensures NestedProperty(s1, p + "." + rest, host) == NestedProperty(s2, p + "." + rest, host)
  {
    DottedPathStartsAtHead(s1, p, rest, host);
    DottedPathStartsAtHead(s2, p, rest, host);
  }

  /** A two-key path `p.key`: undefined when `p` holds null or undefined,
      and otherwise the formatted property `key` of the value under `p`; in
      particular a missing property reads as "" and raises nothing. */
  lemma TwoKeyPath(state: map<string, Value>, p: string, key: string, host: Host)
    requires '.' !in p && '.' !in key
    ensures Nullish(Lookup(state, p)) ==> NestedProperty(state, p + "." + key, host) == Undef
    ensures !Nullish(Lookup(state, p)) ==>
      NestedProperty(state, p + "." + key, host) == FormatValue(Property(Lookup(state, p), key), host)
    ensures Lookup(state, p).Obj? && key !in Lookup(state, p).fields ==>
      NestedProperty(state, p + "." + key, host) == Str("")
  {
    DottedPathStartsAtHead(state, p, key, host);
    assert Split(key, '.') == [key] by {
      SplitThenJoin(key, '.');
    }
    assert [key][1..] == [];
  }
}
