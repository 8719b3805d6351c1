# Deep: a dot-path accessor for nested JavaScript objects

`index.js` exports three functions over nested objects and dot-separated paths
such as `"parent.child.leaf"`:

- `get(obj, path)` walks the path one segment at a time. It stops at the first
  falsy value and returns that value.
- `set(obj, path, value)` writes one property at the end of a path whose parent
  already exists. It never creates missing intermediate objects, and it does
  nothing unless `obj`, `path` and `value` are all truthy.
- `update(dest, source, path)` copies the value that `get` finds at `path` in
  `source` to the same path in `dest`. It does nothing unless all arguments and
  that value are truthy.

The model has four modules:

- `JsValues` (`js_values.dfy`): the slice of JavaScript's value model the
  functions rely on.
  - JavaScript values and truthiness.
  - Objects as a class `JsObject`, whose property table `props` is updated in
    place.
  - The sloppy-mode property read `v[key]` (`Index`) and assignment
    `v[key] = x` (`Assign`).
- `DotPath` (`dot_path.dfy`): `split('.')`, `join('.')` and `isTopLevel`, with
  the facts the accessor relies on when it splits a path, drops the last segment
  and joins the rest.
- `Deep` (`deep.dfy`): the three operations.
  - The operations themselves are methods that follow the code statement by
    statement.
  - Their specifications are ghost functions: `Walk` is what `get` computes.
    `SetSpec` and `UpdateSpec` are what `set` and `update` return and which
    single property they write.
  - Lemmas relate the methods to these functions and state what the functions
    promise.
- `DeepScenarios` (`deep_scenarios.dfy`): the cases of the mocha suite in
  `test/index.js`, stated for any separator-free keys.
  - Two cyclic objects show where reading back after `set`, or repeating `set`,
    goes wrong.

`get` only reads: `GetDescendantProperty` has no `modifies` clause.

`set` writes at most one property of one existing object. Its `modifies` clause
is the frame of `SetSpec`'s effect: nothing, or the one object whose property it
assigns.

`update` has the outcome of `set(dest, path, get(source, path))`. The top-level
shortcut and the key-presence check never change that outcome.

`get` reads from the root unconditionally (`obj = obj[arr.shift()]`,
index.js:21). A falsy root such as `0` or `""` therefore reads as `undefined`,
and a root of `undefined` or `null` throws a TypeError. `get`'s precondition
`!Nullish(obj)` excludes that throw.

## Model

| member | source | states |
|---|---|---|
| DotPath.Split | index.js:20 | `path.split('.')` always has at least one segment, no segment contains `.`, and a path containing `.` has at least two segments |
| DotPath.TopLevelIffOneSegment | index.js:9-11 | `isTopLevel(path)` holds exactly when splitting yields one segment, and that segment is then the whole path |
| DotPath.JoinSplit | index.js:42-46 | joining the segments of a split with `.` gives the path back |
| DotPath.SplitJoin | index.js:42-46 | splitting the join of separator-free segments gives those segments back |
| DotPath.ParentPath | index.js:42-46 | for a nested path, `pathArr.join('.')` after popping the last segment splits back into exactly the first n-1 segments, and the path is that parent path, `.`, and the popped segment |
| JsValues.Index | index.js:21 | `v[key]` is `undefined` on a primitive or a missing key; any other result is the value the object stores under `key` |
| JsValues.Assign | index.js:39 | `obj[path] = value` on an object replaces its table by the old one with `key` mapped to `value`, so a read of `key` then gives `value`; on a primitive nothing changes |
| Deep.GetDescendantProperty | index.js:19-23 | the `while` loop that shifts segments and stops at an empty list or a falsy value returns `Walk(obj, split(path))`, and it modifies nothing |
| Deep.WalkPrefix | index.js:21 | a walk splits at any segment: the prefix's value is the answer when it is falsy, otherwise the walk continues from it over the rest |
| Deep.WalkParent | index.js:21 | the walk of a path is the read of the last segment from the walk of its parent path when that value is truthy, and is that falsy value otherwise |
| Deep.WalkStopsAtFalsy | index.js:21 | when some prefix of the path reaches a falsy value, `get` returns that value (for example `0`, not `undefined`) |
| Deep.TruthyLeafHasObjectParent | index.js:21 | a truthy result means every intermediate value was truthy and the parent is an object holding the result under the last segment |
| Deep.Trail | index.js:21 | the sequence of values a walk reads exists: each is read from the one before, all but the last are truthy, and the walk ends after the last segment or at the first falsy value |
| Deep.TrailEndsInWalk | index.js:21 | whatever sequence has those properties ends in the value `get` returns |
| Deep.SetSpec | index.js:31-53 | with a falsy argument, `set` writes nothing and reports `undefined`; it reports either `value` or `undefined`; whenever it writes, it reports `value` and writes the path's last segment |
| Deep.SetWritesTheSlotGetReads | index.js:42-52 | the key `set` writes is the path's last segment, and the object it writes is the root on a top-level path and the parent `get` finds on a nested one; `get` reads the path's value from that same object and key |
| Deep.SetOnMissingParent | index.js:48-51 | with truthy arguments and a nested path, `set` writes nothing exactly when the parent is not an object, and reports `undefined` exactly when the parent is falsy |
| Deep.SetSpecNested | index.js:42-52 | with truthy arguments and a nested path, the outcome is decided by the parent `get` finds: on a truthy parent `set` reports `value` and assigns the last segment on it, on a falsy one it reports `undefined` and writes nothing |
| Deep.AssignOffTrail | index.js:52 | `lastChildParent[lastChild] = value` updates that one key; when the object is not on a walk's trail, the walk still reads the same values |
| Deep.AssignOnParent | index.js:42-52 | the nested branch reports `value` when the parent `get` finds is truthy and `undefined` otherwise; on an object parent it sets the last segment to `value`; if the parent walk avoids the written object, the parent is unchanged and `get(obj, path)` afterwards is `value` |
| Deep.SetDescendantProperty | index.js:31-53 | `set` reports `SetSpec`'s result and changes only `SetSpec`'s target, whose table gains `key := value`; when the walk to the parent does not pass through the written object (a sufficient condition, not a necessary one), `get(obj, path)` afterwards is `value` and a repeated `SetSpec` is unchanged |
| Deep.SetTwice | index.js:31-53 | two identical calls of `set` report the same result and leave the state a single call leaves, provided the walk to the parent does not pass through the written object |
| Deep.UpdateSpec | index.js:61-92 | `update` writes nothing and reports `undefined` unless `dest`, `source` and `path` are truthy; a reported value is truthy and is `get(source, path)` |
| Deep.TruthyLeafOfUpdate | index.js:86-88 | a truthy source value at a nested path sits in an object parent that has the last segment as a key, so the parent and key-presence check at index.js:86 never fails once the source value is truthy |
| Deep.UpdateWritesDestinationParent | index.js:91 | with truthy arguments and source value and an object parent in `dest`, `update` writes the source value into that parent under the last segment |
| Deep.LookUpSource | index.js:68-74 | the lookups compute whether the path is nested, `get(source, path)`, the last segment, and `get(source, parentPath)`, which is the parent walk; they modify nothing |
| Deep.CopyFoundValue | index.js:81-91 | once a truthy source value is found, the top-level shortcut `dest[path] = source[path]`, the key-presence check and the call of `set` together have exactly the outcome of `set(dest, path, sourceValue)` |
| Deep.UpdateDescendantProperty | index.js:61-92 | `update` reports `UpdateSpec`'s result and changes only its target, whose table gains the copied value; when the destination's walk to the parent does not pass through the written object (sufficient, not necessary), `get(dest, path)` afterwards equals `get(source, path)` before |
| DeepScenarios.GetOneLevel | test/index.js:59-66 | `{k: v}` read at `k` gives `v` |
| DeepScenarios.GetSecondLevel | test/index.js:68-77 | `{k1: {k2: v}}` read at `k1.k2` gives `v` |
| DeepScenarios.GetStopsAtZero | index.js:21 | `{k1: 0}` read at `k1.k2` gives `0` |
| DeepScenarios.SetOneLevel | test/index.js:14-21 | setting `k` on `{k: undefined}` to a truthy `v` gives `{k: v}` and reports `v` |
| DeepScenarios.SetSecondLevel | test/index.js:23-32 | setting `k1.k2` on `{k1: {k2: undefined}}` writes only the inner object |
| DeepScenarios.SetWithoutObject | test/index.js:34-37 | `set` without an object reports `undefined` |
| DeepScenarios.SetWithoutPath | test/index.js:39-45 | `set` without a path reports `undefined` and, having no `modifies` clause, changes nothing |
| DeepScenarios.SetWithoutValue | test/index.js:47-53 | `set` with `undefined` or `0` as the value reports `undefined` and changes nothing |
| DeepScenarios.SetOnMissingIntermediate | index.js:48-51 | `set` at `k1.k2` on `{}` creates nothing and reports `undefined` |
| DeepScenarios.SetOnCycleReroutesGet | index.js:42-52 | on `o = {k: o}`, `set(o, 'k.k', x)` with a primitive `x` reports `x`, yet `get(o, 'k.k')` afterwards is `undefined` |
| DeepScenarios.SetTwiceOnCycle | index.js:42-52 | on `o = {k: o}`, a first `set(o, 'k.k', x)` with an object `x` leaves `x` empty, a second identical call writes `x.k` |
| DeepScenarios.UpdateFirstLevel | test/index.js:83-94 | updating `k` of `{k: undefined}` from `{k: v}` gives `{k: v}` |
| DeepScenarios.UpdateSecondLevel | test/index.js:96-111 | updating `k1.k2` writes `v` into the destination's inner object |
| DeepScenarios.ThreeLevelUpdateOutcome | test/index.js:113-132 | on two three-level objects, `update` at `k1.k2.k3` writes the source leaf into the destination's innermost object |
| DeepScenarios.UpdateThirdLevel | test/index.js:113-132 | updating `k1.k2.k3` replaces the innermost value with the source's |
| DeepScenarios.UpdateFromMissingSourceValue | index.js:77-79 | a source without the key makes `update` report `undefined` and change nothing |

## Left out

- The lodash calls `_.initial` and `_.last` (index.js:72-73) are modelled as the
  sequence functions `Init` and `Last`, not as calls into lodash.
- `require` and the module wrapper (index.js:5-7, 94-103) have no behaviour to
  model.
- A `get` whose root is `undefined` or `null` throws a TypeError at index.js:21.
  `GetDescendantProperty` has the precondition `!Nullish(obj)` instead. `set`
  and `update` only call `get` on truthy roots.
- Paths are strings or falsy values: `set` and `update` have the precondition
  `PathArgument`. A truthy non-string path is not modelled. In JavaScript a
  number path throws at `path.indexOf`. An array path passes `indexOf` (index.js:10
  then searches its elements for `'.'`): `set(obj, ['a'], v)` takes the top-level
  branch and assigns `obj['a']`, while `update` throws at `path.split`
  (index.js:20, via index.js:69).
- Primitives have no own properties in the model, so `"abc"["length"]` reads
  `undefined`.
- Objects have no prototype, so a key such as `toString` is missing unless the
  object stores it. Getters, setters, proxies, symbol keys and non-enumerable
  properties are not modelled.
- Assigning onto a truthy primitive is the sloppy-mode silent no-op. The file
  has no `"use strict"`, so strict mode's TypeError is not modelled.
- `lastPart in sourceParentObject` (index.js:86) throws a TypeError when the
  parent is a primitive. That throw is not modelled. Within the model the check
  never fails, because primitives have no properties, so the parent of a truthy
  value is always an object holding the key (`Deep.TruthyLeafOfUpdate`). In
  JavaScript, `source = {a: "xyz"}` with path `a.length` finds the truthy value
  `3` and reaches index.js:86 with a string parent, where `in` throws.
- Numbers are reals plus a separate `NaN`, since only their truthiness matters.
  `-0` is `Num(0.0)`.
- `Value` has no BigInt or Symbol case. BigInt `0n`, which is falsy, and symbols
  are not modelled.
- Deep.SetDescendantProperty: `get(obj, path) == value` afterwards is proved
  only when the walk to the parent does not pass through the written object. On
  a cycle it can fail, as `DeepScenarios.SetOnCycleReroutesGet` shows.
- Deep.SetTwice: idempotence is proved under the same side condition. Without
  it a second call can write a different object, as
  `DeepScenarios.SetTwiceOnCycle` shows.
- Deep.UpdateDescendantProperty: reading back `get(dest, path)` is proved under
  the same side condition on `dest`.
- The scenarios use any keys without `.`, not the literal keys of the suite.
  They receive their objects already built, with the objects' contents as
  preconditions.
