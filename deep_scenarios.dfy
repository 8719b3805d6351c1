/** The cases the repository's mocha suite exercises, replayed on the model for
    any separator-free keys and any values of the kind the tests use, and the
    cyclic objects on which reading back after `set`, or repeating `set`, goes
    wrong. Each case receives its objects already built, as the literals of the
    suite are, with their contents as preconditions. */
module DeepScenarios {
  import opened JsValues
  import opened DotPath
  import opened Deep

  /** A path of two separator-free segments splits into exactly those two. */
  lemma SplitTwo(a: string, b: string)
    requires Separator !in a && Separator !in b
    ensures Split(a + [Separator] + b) == [a, b]
  {
    SplitAtSeparator(a, b);
    TopLevelIffOneSegment(b);
  }

  /** A path of three separator-free segments splits into exactly those three. */
  lemma SplitThree(a: string, b: string, c: string)
    requires Separator !in a && Separator !in b && Separator !in c
    ensures Split(a + [Separator] + b + [Separator] + c) == [a, b, c]
  {
    var t := b + [Separator] + c;
    var path := a + [Separator] + b + [Separator] + c;
    assert path == a + [Separator] + t;
    SplitTwo(b, c);
    SplitAtSeparator(a, t);
    assert [a] + [b, c] == [a, b, c];
  }

  /** Overwriting the one key of a one-key table. */
  lemma OverwriteOnlyKey(k: string, a: Value, b: Value)
    ensures map[k := a][k := b] == map[k := b]
  {
  }

  /** `{hello: 'world'}` read at `hello` gives `'world'`. */
  method GetOneLevel(obj: JsObject, key: string, v: Value) returns (value: Value)
    requires Separator !in key && obj.props == map[key := v]
    ensures value == v
  {
    TopLevelIffOneSegment(key);
    value := GetDescendantProperty(Ref(obj), key);
  }

  /** `{hello: {world: 'again'}}` read at `hello.world` gives `'again'`. */
  method GetSecondLevel(obj: JsObject, inner: JsObject, k1: string, k2: string, v: Value) returns (value: Value)
    requires Separator !in k1 && Separator !in k2
    requires obj.props == map[k1 := Ref(inner)] && inner.props == map[k2 := v]
    ensures value == v
  {
    SplitTwo(k1, k2);
    value := GetDescendantProperty(Ref(obj), k1 + [Separator] + k2);
  }

  /** `get` stops at the first falsy value and returns it: `{a: 0}` read at
      `a.b` gives `0`, not `undefined`. */
  method GetStopsAtZero(obj: JsObject, k1: string, k2: string) returns (value: Value)
    requires Separator !in k1 && Separator !in k2 && obj.props == map[k1 := Num(0.0)]
    ensures value == Num(0.0)
  {
    SplitTwo(k1, k2);
    value := GetDescendantProperty(Ref(obj), k1 + [Separator] + k2);
  }

  /** Setting `hello` on `{hello: undefined}` to `'world'`. */
  method SetOneLevel(obj: JsObject, key: string, v: Value) returns (r: Value)
    requires Separator !in key && key != "" && Truthy(v)
    requires obj.props == map[key := Undefined]
    modifies obj
    ensures obj.props == map[key := v]
    ensures r == v
  {
    TopLevelIffOneSegment(key);
    OverwriteOnlyKey(key, Undefined, v);
    r := SetDescendantProperty(Ref(obj), Str(key), v);
  }

  /** Setting `hello.world` on `{hello: {world: undefined}}` to `'again'`
      writes the inner object and leaves the outer one alone. */
  method SetSecondLevel(obj: JsObject, inner: JsObject, k1: string, k2: string, v: Value) returns (r: Value)
    requires Separator !in k1 && Separator !in k2 && Truthy(v)
    requires obj.props == map[k1 := Ref(inner)] && inner.props == map[k2 := Undefined]
    modifies inner
    ensures obj.props == map[k1 := Ref(inner)]
    ensures inner.props == map[k2 := v]
    ensures r == v
  {
    SplitTwo(k1, k2);
    assert Init([k1, k2]) == [k1];
    OverwriteOnlyKey(k2, Undefined, v);
    r := SetDescendantProperty(Ref(obj), Str(k1 + [Separator] + k2), v);
  }

  /** Setting on a missing object does nothing and reports `undefined`. */
  method SetWithoutObject(path: string, v: Value) returns (r: Value)
    ensures r == Undefined
  {
    r := SetDescendantProperty(Undefined, Str(path), v);
  }

  /** Setting with a missing path changes nothing and reports `undefined`. */
  method SetWithoutPath(obj: JsObject, v: Value) returns (r: Value)
    ensures r == Undefined
  {
    r := SetDescendantProperty(Ref(obj), Undefined, v);
  }

  /** Setting a missing value changes nothing and reports `undefined`; so does
      setting the falsy value `0`. */
  method SetWithoutValue(obj: JsObject, key: string) returns (r: Value, r0: Value)
    ensures r == Undefined && r0 == Undefined
  {
    r := SetDescendantProperty(Ref(obj), Str(key), Undefined);
    r0 := SetDescendantProperty(Ref(obj), Str(key), Num(0.0));
  }

  /** `set` creates no intermediate objects: on `{}` a two-segment path has no
      parent, nothing is written and the call reports `undefined`. */
  method SetOnMissingIntermediate(obj: JsObject, k1: string, k2: string, v: Value) returns (r: Value)
    requires Separator !in k1 && Separator !in k2 && obj.props == map[]
    ensures r == Undefined
  {
    SplitTwo(k1, k2);
    assert Init([k1, k2]) == [k1];
    r := SetDescendantProperty(Ref(obj), Str(k1 + [Separator] + k2), v);
  }

  /** On the cyclic object `o = {a: o}`, `set(o, 'a.a', 'x')` finds the parent
      `o.a`, which is `o` itself, and overwrites `o.a`; reading `a.a` back then
      reads from the new primitive and gives `undefined`. */
  method SetOnCycleReroutesGet(o: JsObject, k: string, x: Value) returns (r: Value, back: Value)
    requires Separator !in k && Truthy(x) && !x.Ref?
    requires o.props == map[k := Ref(o)]
    modifies o
    ensures r == x
    ensures back == Undefined
  {
    SplitTwo(k, k);
    assert Init([k, k]) == [k];
    var path := Str(k + [Separator] + k);
    assert Walk(Ref(o), [k]) == Ref(o);
    assert SetSpec(Ref(o), path, x) == Outcome(x, WriteKey(o, k));
    r := SetDescendantProperty(Ref(o), path, x);
    back := GetDescendantProperty(Ref(o), k + [Separator] + k);
  }

  /** Without the side condition `set` is not idempotent: on `o = {a: o}`,
      `set(o, 'a.a', x)` with an object `x` overwrites `o.a` with `x`, and a
      second identical call then finds the parent `x` and writes `x.a`. */
  method SetTwiceOnCycle(o: JsObject, x: JsObject, k: string) returns (afterOne: map<string, Value>)
    requires Separator !in k && o != x
    requires o.props == map[k := Ref(o)] && x.props == map[]
    modifies o, x
    ensures afterOne == map[]
    ensures x.props == map[k := Ref(x)]
  {
    SplitTwo(k, k);
    assert Init([k, k]) == [k];
    var path := Str(k + [Separator] + k);
    assert Walk(Ref(o), [k]) == Ref(o);
    assert SetSpec(Ref(o), path, Ref(x)) == Outcome(Ref(x), WriteKey(o, k));
    var r := SetDescendantProperty(Ref(o), path, Ref(x));
    afterOne := x.props;
    assert Walk(Ref(o), [k]) == Ref(x);
    assert SetSpec(Ref(o), path, Ref(x)) == Outcome(Ref(x), WriteKey(x, k));
    r := SetDescendantProperty(Ref(o), path, Ref(x));
  }

  /** Updating `hello` of `{hello: undefined}` from `{hello: 'world'}`. */
  method UpdateFirstLevel(destination: JsObject, source: JsObject, key: string, v: Value) returns (r: Value)
    requires Separator !in key && key != "" && Truthy(v)
    requires destination.props == map[key := Undefined] && source.props == map[key := v]
    modifies destination
    ensures destination.props == map[key := v]
    ensures r == v
  {
    TopLevelIffOneSegment(key);
    OverwriteOnlyKey(key, Undefined, v);
    r := UpdateDescendantProperty(Ref(destination), Ref(source), Str(key));
  }

  /** Updating `hello.world` of `{hello: {world: undefined}}` from
      `{hello: {world: 'again'}}`. */
  method UpdateSecondLevel(destination: JsObject, inner: JsObject, source: JsObject, sourceInner: JsObject,
                           k1: string, k2: string, v: Value) returns (r: Value)
    requires Separator !in k1 && Separator !in k2 && Truthy(v)
    requires destination.props == map[k1 := Ref(inner)] && inner.props == map[k2 := Undefined]
    requires source.props == map[k1 := Ref(sourceInner)] && sourceInner.props == map[k2 := v]
    modifies inner
    ensures inner.props == map[k2 := v]
    ensures r == v
  {
    var path := k1 + [Separator] + k2;
    SplitTwo(k1, k2);
    assert Init([k1, k2]) == [k1];
    assert Walk(Ref(source), Split(path)) == v;
    assert Walk(Ref(destination), Init(Split(path))) == Ref(inner);
    UpdateWritesDestinationParent(Ref(destination), Ref(source), path, inner);
    assert Last(Split(path)) == k2;
    OverwriteOnlyKey(k2, Undefined, v);
    r := UpdateDescendantProperty(Ref(destination), Ref(source), Str(path));
  }

  /** On two three-level objects, `update` at `k1.k2.k3` writes the source's
      leaf into the destination's innermost object. */
  lemma ThreeLevelUpdateOutcome(destination: JsObject, middle: JsObject, innermost: JsObject,
                                source: JsObject, sourceMiddle: JsObject, sourceInnermost: JsObject,
                                k1: string, k2: string, k3: string, v: Value)
    requires Separator !in k1 && Separator !in k2 && Separator !in k3 && Truthy(v)
    requires destination.props == map[k1 := Ref(middle)] && middle.props == map[k2 := Ref(innermost)]
    requires source.props == map[k1 := Ref(sourceMiddle)] && sourceMiddle.props == map[k2 := Ref(sourceInnermost)]
    requires sourceInnermost.props == map[k3 := v]
    ensures var path := k1 + [Separator] + k2 + [Separator] + k3;
      UpdateSpec(Ref(destination), Ref(source), Str(path)) == Outcome(v, WriteKey(innermost, k3))
  {
    var path := k1 + [Separator] + k2 + [Separator] + k3;
    SplitThree(k1, k2, k3);
    assert Init([k1, k2, k3]) == [k1, k2];
    assert [k1, k2, k3][1..] == [k2, k3] && [k2, k3][1..] == [k3] && [k1, k2][1..] == [k2];
    assert Walk(Ref(sourceMiddle), [k2, k3]) == v;
    UpdateWritesDestinationParent(Ref(destination), Ref(source), path, innermost);
  }

  /** Updating `hello.world.again` from `'inital value'` to `'new value'`. */
  method UpdateThirdLevel(destination: JsObject, middle: JsObject, innermost: JsObject,
                          source: JsObject, sourceMiddle: JsObject, sourceInnermost: JsObject,
                          k1: string, k2: string, k3: string, old3: Value, v: Value) returns (r: Value)
    requires Separator !in k1 && Separator !in k2 && Separator !in k3 && Truthy(v)
    requires destination.props == map[k1 := Ref(middle)] && middle.props == map[k2 := Ref(innermost)]
    requires innermost.props == map[k3 := old3]
    requires source.props == map[k1 := Ref(sourceMiddle)] && sourceMiddle.props == map[k2 := Ref(sourceInnermost)]
    requires sourceInnermost.props == map[k3 := v]
    modifies innermost
    ensures innermost.props == map[k3 := v]
    ensures r == v
  {
    ThreeLevelUpdateOutcome(destination, middle, innermost, source, sourceMiddle, sourceInnermost, k1, k2, k3, v);
    OverwriteOnlyKey(k3, old3, v);
    r := UpdateDescendantProperty(Ref(destination), Ref(source), Str(k1 + [Separator] + k2 + [Separator] + k3));
  }

  /** A source without the key leaves the destination alone. */
  method UpdateFromMissingSourceValue(destination: JsObject, source: JsObject, key: string) returns (r: Value)
    requires Separator !in key && key != "" && source.props == map[]
    ensures r == Undefined
  {
    TopLevelIffOneSegment(key);
    r := UpdateDescendantProperty(Ref(destination), Ref(source), Str(key));
  }
}
