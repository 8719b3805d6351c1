/** The dot-path accessor of index.js: `get` walks a dot-separated path through
    nested objects, `set` writes one property at the end of a path whose parent
    already exists, and `update` copies the value found at a path of a source
    object to the same path of a destination object. */
module Deep {
  import opened JsValues
  import opened DotPath

  /** `set` and `update` are called with a string path, or with a falsy one that
      they reject before using it as a string. */
  predicate PathArgument(path: Value) {
    path.Str? || !Truthy(path)
  }

  /** All segments but the last. */
  function Init(segs: seq<string>): seq<string>
    requires |segs| >= 1
  {
    segs[..|segs| - 1]
  }

  /** The last segment. */
  function Last(segs: seq<string>): string
    requires |segs| >= 1
  {
    segs[|segs| - 1]
  }

  // ---------------------------------------------------------------------------
  // get
  // ---------------------------------------------------------------------------

  /** What `get` computes: read the first segment of `v`, and carry on with the
      rest only while the value read is truthy. The first read is made whatever
      `v` is, so a falsy but non-nullish root such as `0` reads as `undefined`. */
  ghost function Walk(v: Value, segs: seq<string>): Value
    requires |segs| >= 1 && !Nullish(v)
    reads *
    decreases |segs|
  {
    var c := Index(v, segs[0]);
    if |segs| == 1 || !Truthy(c) then c else Walk(c, segs[1..])
  }

  /** `getDescendantProperty(obj, path)`: split the path, then shift one segment
      at a time off the list and read it, stopping once the list is empty or the
      value read is falsy. Reading from `undefined` or `null` throws, hence the
      precondition on the root. */
  method GetDescendantProperty(obj: Value, path: string) returns (r: Value)
    requires !Nullish(obj)
    ensures r == Walk(obj, Split(path))
  {
    var arr := Split(path);
    r := obj;
    var more := |arr| > 0;
    while more
      invariant more ==> |arr| >= 1 && !Nullish(r)
      invariant Walk(obj, Split(path)) == if more then Walk(r, arr) else r
      decreases |arr|
    {
      r := Index(r, arr[0]);
      arr := arr[1..];
      more := |arr| > 0 && Truthy(r);
    }
  }

  /** A walk splits at any segment: walk the prefix, and if the value reached is
      truthy walk the rest from there; otherwise the prefix's value is the answer. */
  lemma {:induction false} WalkPrefix(v: Value, segs: seq<string>, i: nat)
    requires !Nullish(v) && 0 < i < |segs|
    ensures var m := Walk(v, segs[..i]);
      Walk(v, segs) == if Truthy(m) then Walk(m, segs[i..]) else m
    decreases i
  {
    var c := Index(v, segs[0]);
    assert segs[..i][0] == segs[0];
    if i == 1 {
      assert segs[1..] == segs[i..];
    } else if Truthy(c) {
      WalkPrefix(c, segs[1..], i - 1);
      assert segs[..i][1..] == segs[1..][..i - 1];
      assert segs[1..][i - 1..] == segs[i..];
    }
  }

  /** A walk reads its last segment from the value the other segments reach,
      provided that value is truthy; a falsy parent is itself the result. */
  lemma WalkParent(v: Value, segs: seq<string>)
    requires !Nullish(v) && |segs| >= 2
    ensures var p := Walk(v, Init(segs));
      Walk(v, segs) == if Truthy(p) then Index(p, Last(segs)) else p
  {
    WalkPrefix(v, segs, |segs| - 1);
    assert segs[|segs| - 1..] == [Last(segs)];
  }

  /** `get` stops at a falsy intermediate value and returns that value. */
  lemma WalkStopsAtFalsy(v: Value, segs: seq<string>, i: nat)
    requires !Nullish(v) && 0 < i < |segs|
    requires !Truthy(Walk(v, segs[..i]))
    ensures Walk(v, segs) == Walk(v, segs[..i])
  {
    WalkPrefix(v, segs, i);
  }

  /** A truthy result means every intermediate value was truthy, the parent is an
      object that has the last segment as a key, and the result is stored there. */
  lemma TruthyLeafHasObjectParent(v: Value, segs: seq<string>)
    requires !Nullish(v) && |segs| >= 2
    requires Truthy(Walk(v, segs))
    ensures forall i :: 0 < i < |segs| ==> Truthy(Walk(v, segs[..i]))
    ensures var p := Walk(v, Init(segs));
      p.Ref? && Last(segs) in p.obj.props && p.obj.props[Last(segs)] == Walk(v, segs)
  {
    forall i | 0 < i < |segs| ensures Truthy(Walk(v, segs[..i])) {
      WalkPrefix(v, segs, i);
    }
    WalkParent(v, segs);
  }

  /** The value step `i` of a walk reads from: the root, then each value read. */
  function ReadFrom(v: Value, t: seq<Value>, i: nat): Value
    requires i <= |t|
  {
    if i == 0 then v else t[i - 1]
  }

  /** `t` lists, in order, the values a walk of `segs` from `v` reads: each is
      read from the one before, all but the last are truthy, and the walk ends
      after the last segment or at the first falsy value. */
  ghost predicate IsTrail(v: Value, segs: seq<string>, t: seq<Value>)
    reads *
  {
    && 1 <= |t| <= |segs|
    && (forall i {:trigger ReadFrom(v, t, i)} :: 0 <= i < |t| ==>
          !Nullish(ReadFrom(v, t, i)) && t[i] == Index(ReadFrom(v, t, i), segs[i]))
    && (forall i :: 0 <= i < |t| - 1 ==> Truthy(t[i]))
    && (|t| == |segs| || !Truthy(t[|t| - 1]))
  }

  /** The trail of a walk. */
  ghost function Trail(v: Value, segs: seq<string>): (t: seq<Value>)
    requires |segs| >= 1 && !Nullish(v)
    reads *
    ensures IsTrail(v, segs, t)
    decreases |segs|
  {
    var c := Index(v, segs[0]);
    if |segs| == 1 || !Truthy(c) then [c]
    else
      var rest := Trail(c, segs[1..]);
      assert forall i :: 1 <= i <= |rest| ==> ReadFrom(v, [c] + rest, i) == ReadFrom(c, rest, i - 1);
      [c] + rest
  }

  /** `get` returns the last value of its trail: the leaf when every
      intermediate value is truthy, the first falsy one otherwise. */
  lemma {:induction false} TrailEndsInWalk(v: Value, segs: seq<string>, t: seq<Value>)
    requires !Nullish(v) && IsTrail(v, segs, t)
    ensures Walk(v, segs) == t[|t| - 1]
    decreases |segs|
  {
    assert ReadFrom(v, t, 0) == v;
    var c := Index(v, segs[0]);
    if |t| > 1 {
      assert IsTrail(c, segs[1..], t[1..]) by {
        forall i | 0 <= i < |t| - 1
          ensures ReadFrom(c, t[1..], i) == ReadFrom(v, t, i + 1)
        {
        }
      }
      TrailEndsInWalk(c, segs[1..], t[1..]);
    }
  }

  /** The objects that the steps of trail `t` from `v` read properties of. */
  function TrailObjects(v: Value, t: seq<Value>): set<JsObject> {
    set i | 0 <= i < |t| && ReadFrom(v, t, i).Ref? :: ReadFrom(v, t, i).obj
  }

  /** The objects whose properties a walk reads. */
  ghost function Visited(v: Value, segs: seq<string>): set<JsObject>
    requires |segs| >= 1 && !Nullish(v)
    reads *
  {
    TrailObjects(v, Trail(v, segs))
  }

  // ---------------------------------------------------------------------------
  // set and update: what they do, as a value
  // ---------------------------------------------------------------------------

  /** The state change of one call: nothing, or one property of one object. */
  datatype Effect = NoWrite | WriteKey(target: JsObject, key: string) {
    function Frame(): set<JsObject> {
      if WriteKey? then {target} else {}
    }
  }

  /** What a call returns and what it writes. */
  datatype Outcome = Outcome(result: Value, effect: Effect)

  /** The effect of the assignment `v[key] = ...`. */
  function AssignEffect(v: Value, key: string): (e: Effect)
    ensures e.Frame() == AssignFrame(v)
  {
    if v.Ref? then WriteKey(v.obj, key) else NoWrite
  }

  /** What `setDescendantProperty(obj, path, value)` returns and writes. */
  ghost function SetSpec(obj: Value, path: Value, value: Value): (o: Outcome)
    requires PathArgument(path)
    reads *
    ensures !(Truthy(obj) && Truthy(path) && Truthy(value)) ==> o == Outcome(Undefined, NoWrite)
    ensures o.result == value || o.result == Undefined
    ensures o.effect.WriteKey? ==> o.result == value
    ensures o.effect.WriteKey? ==> o.effect.key == Last(Split(path.s))
  {
    if !(Truthy(obj) && Truthy(path) && Truthy(value)) then Outcome(Undefined, NoWrite)
    else if IsTopLevel(path.s) then
      TopLevelIffOneSegment(path.s);
      Outcome(value, AssignEffect(obj, path.s))
    else
      var segs := Split(path.s);
      var parent := Walk(obj, Init(segs));
      if !Truthy(parent) then Outcome(Undefined, NoWrite)
      else Outcome(value, AssignEffect(parent, Last(segs)))
  }

  /** `set` writes exactly the slot that `get` reads the path's value from. */
  lemma SetWritesTheSlotGetReads(obj: Value, path: Value, value: Value)
    requires PathArgument(path)
    requires SetSpec(obj, path, value).effect.WriteKey?
    ensures var e := SetSpec(obj, path, value).effect;
      && e.key == Last(Split(path.s))
      && (IsTopLevel(path.s) ==> obj == Ref(e.target))
      && (!IsTopLevel(path.s) ==>
            && Parent(obj, path.s) == Ref(e.target)
            && Walk(obj, Split(path.s)) == Index(Parent(obj, path.s), Last(Split(path.s))))
      && Walk(obj, Split(path.s)) == Index(Ref(e.target), e.key)
  {
    TopLevelIffOneSegment(path.s);
    if !IsTopLevel(path.s) {
      WalkParent(obj, Split(path.s));
    }
  }

  /** `set` with truthy arguments on a nested path writes nothing exactly when the
      parent does not resolve to an object, and then reports `undefined` if the
      parent is falsy and `value` if it is a truthy primitive. */
  lemma SetOnMissingParent(obj: Value, path: Value, value: Value)
    requires PathArgument(path) && Truthy(obj) && Truthy(path) && Truthy(value)
    requires !IsTopLevel(path.s)
    ensures var p := Walk(obj, Init(Split(path.s)));
      && (SetSpec(obj, path, value).effect.NoWrite? <==> !p.Ref?)
      && (SetSpec(obj, path, value).result == Undefined <==> !Truthy(p))
  {
  }

  /** A call of `set` writes, and on a nested path the walk to the parent does
      not pass through the object it writes; then `get` afterwards finds the new
      value. The condition is sufficient, not necessary: on a cyclic structure
      (`o.a === o`, path `a.a`) the write can reroute the walk. */
  ghost predicate SetRoundTrips(obj: Value, path: Value, value: Value)
    requires PathArgument(path)
    reads *
  {
    && SetSpec(obj, path, value).effect.WriteKey?
    && (IsTopLevel(path.s) || ParentWalkAvoidsWrite(obj, path.s))
  }

  /** What `updateDescendantProperty(dest, source, path)` returns and writes:
      nothing unless all three arguments and the source's value at `path` are
      truthy, and otherwise what `set(dest, path, get(source, path))` does. */
  ghost function UpdateSpec(dest: Value, source: Value, path: Value): (o: Outcome)
    requires PathArgument(path)
    reads *
    ensures !(Truthy(dest) && Truthy(source) && Truthy(path)) ==> o == Outcome(Undefined, NoWrite)
    ensures o.result == Undefined || Truthy(o.result)
    ensures o.result != Undefined ==>
      Truthy(source) && Truthy(path) && o.result == Walk(source, Split(path.s))
  {
    if !(Truthy(dest) && Truthy(source) && Truthy(path)) then Outcome(Undefined, NoWrite)
    else
      var sourceValue := Walk(source, Split(path.s));
      if !Truthy(sourceValue) then Outcome(Undefined, NoWrite)
      else SetSpec(dest, path, sourceValue)
  }

  /** A truthy value at a nested source path sits in an object parent that has
      the last segment as a key. */
  lemma TruthyLeafOfUpdate(source: Value, path: string)
    requires !Nullish(source) && !IsTopLevel(path)
    ensures var segs := Split(path);
      Truthy(Walk(source, segs)) ==>
        var p := Walk(source, Init(segs));
        p.Ref? && Last(segs) in p.obj.props && p.obj.props[Last(segs)] == Walk(source, segs)
  {
    TopLevelIffOneSegment(path);
    if Truthy(Walk(source, Split(path))) {
      TruthyLeafHasObjectParent(source, Split(path));
    }
  }

  /** With truthy arguments, a truthy source value and a nested path whose
      destination parent is an object, `update` writes that value into the
      parent under the last segment and reports it. */
  lemma UpdateWritesDestinationParent(dest: Value, source: Value, path: string, target: JsObject)
    requires Truthy(dest) && Truthy(source) && !IsTopLevel(path)
    requires Truthy(Walk(source, Split(path)))
    requires Walk(dest, Init(Split(path))) == Ref(target)
    ensures UpdateSpec(dest, source, Str(path)) ==
      Outcome(Walk(source, Split(path)), WriteKey(target, Last(Split(path))))
  {
  }

  /** When `update` writes, and the destination's parent walk does not pass
      through the object it writes, `get(dest, path)` afterwards equals
      `get(source, path)` before. */
  ghost predicate UpdateRoundTrips(dest: Value, source: Value, path: Value)
    requires PathArgument(path)
    reads *
  {
    && Truthy(dest) && Truthy(source) && Truthy(path)
    && Truthy(Walk(source, Split(path.s)))
    && SetRoundTrips(dest, path, Walk(source, Split(path.s)))
  }

  // ---------------------------------------------------------------------------
  // set and update: the operations
  // ---------------------------------------------------------------------------

  /** The parent a nested path's last segment is assigned on. */
  ghost function Parent(obj: Value, path: string): Value
    requires !Nullish(obj) && !IsTopLevel(path)
    reads *
  {
    Walk(obj, Init(Split(path)))
  }

  /** The parent walk of a nested path does not pass through the object that
      `set` writes, so the write cannot reroute it. */
  ghost predicate ParentWalkAvoidsWrite(obj: Value, path: string)
    requires !Nullish(obj) && !IsTopLevel(path)
    reads *
  {
    var p := Parent(obj, path);
    p.Ref? && p.obj !in Visited(obj, Init(Split(path)))
  }

  /** With truthy arguments and a nested path, `set` is decided by the parent. */
  lemma SetSpecNested(obj: Value, path: Value, value: Value)
    requires PathArgument(path) && Truthy(obj) && Truthy(path) && Truthy(value)
    requires !IsTopLevel(path.s)
    ensures SetSpec(obj, path, value) ==
      if Truthy(Parent(obj, path.s)) then Outcome(value, AssignEffect(Parent(obj, path.s), Last(Split(path.s))))
      else Outcome(Undefined, NoWrite)
  {
  }

  /** The assignment `target[key] = value`, seen from a walk whose trail `t` is
      known: when the target is not one of the objects the trail reads, every
      step of the walk reads what it read before, so `t` is still its trail. */
  method AssignOffTrail(target: Value, key: string, value: Value,
                        ghost root: Value, ghost segs: seq<string>, ghost t: seq<Value>)
    requires !Nullish(target) && IsTrail(root, segs, t)
    modifies AssignFrame(target)
    ensures target.Ref? ==> target.obj.props == old(target.obj.props)[key := value]
    ensures target.Ref? && target.obj !in TrailObjects(root, t) ==> IsTrail(root, segs, t)
  {
    Assign(target, key, value);
    if target.Ref? && target.obj !in TrailObjects(root, t) {
      forall i | 0 <= i < |t|
        ensures t[i] == Index(ReadFrom(root, t, i), segs[i])
      {
        assert t[i] == old(Index(ReadFrom(root, t, i), segs[i]));
      }
    }
  }

  /** The nested branch of `setDescendantProperty`: split the path, pop the last
      segment, look the parent up with `get` on the remaining segments joined
      again, and assign on the parent when it is truthy. */
  method AssignOnParent(obj: Value, path: string, value: Value) returns (r: Value)
    requires !Nullish(obj) && !IsTopLevel(path)
    modifies if Truthy(Parent(obj, path)) then AssignFrame(Parent(obj, path)) else {}
    ensures var p := old(Parent(obj, path));
      && r == (if Truthy(p) then value else Undefined)
      && (p.Ref? ==> p.obj.props == old(p.obj.props)[Last(Split(path)) := value])
    ensures old(ParentWalkAvoidsWrite(obj, path)) ==>
      && Parent(obj, path) == old(Parent(obj, path))
      && Walk(obj, Split(path)) == value
  {
    ghost var parent := Parent(obj, path);
    ghost var avoids := ParentWalkAvoidsWrite(obj, path);
    var pathArr := Split(path);
    var lastChild := pathArr[|pathArr| - 1];
    pathArr := pathArr[..|pathArr| - 1];
    ParentPath(path);
    ghost var trail := Trail(obj, pathArr);
    TrailEndsInWalk(obj, pathArr, trail);
    var lastChildParent := GetDescendantProperty(obj, Join(pathArr));
    assert lastChildParent == parent;
    assert avoids == (parent.Ref? && parent.obj !in TrailObjects(obj, trail));
    if !Truthy(lastChildParent) {
      return Undefined;
    }
    assert IsTrail(obj, pathArr, trail);
    assert lastChildParent.Ref? ==> lastChildParent.obj.props == old(lastChildParent.obj.props);
    AssignOffTrail(lastChildParent, lastChild, value, obj, pathArr, trail);
    if avoids {
      TrailEndsInWalk(obj, pathArr, trail);
      WalkParent(obj, Split(path));
    }
    return value;
  }

  /** `setDescendantProperty(obj, path, value)`: a no-op reporting `undefined`
      unless all three arguments are truthy; a top-level path is assigned on `obj`
      directly; a nested path is assigned on the value `get` finds for the parent
      path, when that value is truthy. Missing intermediates are never created. */
  method SetDescendantProperty(obj: Value, path: Value, value: Value) returns (r: Value)
    requires PathArgument(path)
    modifies SetSpec(obj, path, value).effect.Frame()
    ensures var o := old(SetSpec(obj, path, value));
      && r == o.result
      && (o.effect.WriteKey? ==> o.effect.target.props == old(o.effect.target.props)[o.effect.key := value])
    ensures Truthy(obj) && Truthy(path) && old(SetRoundTrips(obj, path, value)) ==>
      && Walk(obj, Split(path.s)) == value
      && SetSpec(obj, path, value) == old(SetSpec(obj, path, value))
  {
    if !(Truthy(obj) && Truthy(path) && Truthy(value)) {
      return Undefined;
    }
    var p := path.s;
    TopLevelIffOneSegment(p);
    if IsTopLevel(p) {
      Assign(obj, p, value);
      return value;
    }
    SetSpecNested(obj, path, value);
    r := AssignOnParent(obj, p, value);
    SetSpecNested(obj, path, value);
  }

  /** Two identical calls of `set` leave the state that one call leaves and
      report the same result, provided the walk to the parent does not pass
      through the written object. */
  method SetTwice(obj: Value, path: Value, value: Value) returns (first: Value, second: Value)
    requires PathArgument(path)
    requires SetSpec(obj, path, value).effect.WriteKey? ==> SetRoundTrips(obj, path, value)
    modifies SetSpec(obj, path, value).effect.Frame()
    ensures var o := old(SetSpec(obj, path, value));
      && first == o.result && second == o.result
      && (o.effect.WriteKey? ==> o.effect.target.props == old(o.effect.target.props)[o.effect.key := value])
  {
    first := SetDescendantProperty(obj, path, value);
    second := SetDescendantProperty(obj, path, value);
  }

  /** The tail of `updateDescendantProperty` once a truthy source value has been
      found: the top-level shortcut `dest[path] = source[path]`, then the check
      that the last segment is an own key of the source parent, then a call of
      `set`. Neither the shortcut nor the check changes the outcome of `set`. */
  method CopyFoundValue(dest: Value, source: Value, path: Value, isDescendentProp: bool,
                        sourceValue: Value, sourceParentObject: Value, lastPart: string) returns (r: Value)
    requires PathArgument(path) && Truthy(dest) && Truthy(source) && Truthy(path)
    requires isDescendentProp <==> !IsTopLevel(path.s)
    requires Truthy(sourceValue) && sourceValue == Walk(source, Split(path.s))
    requires lastPart == Last(Split(path.s))
    requires !IsTopLevel(path.s) ==> sourceParentObject == Parent(source, path.s)
    modifies SetSpec(dest, path, sourceValue).effect.Frame()
    ensures var o := old(SetSpec(dest, path, sourceValue));
      && r == o.result
      && (o.effect.WriteKey? ==> o.effect.target.props == old(o.effect.target.props)[o.effect.key := r])
    ensures old(SetRoundTrips(dest, path, sourceValue)) ==> Walk(dest, Split(path.s)) == sourceValue
  {
    var p := path.s;
    TopLevelIffOneSegment(p);
    ghost var setSpec := SetSpec(dest, path, sourceValue);
    ghost var roundTrips := SetRoundTrips(dest, path, sourceValue);
    if !isDescendentProp && Truthy(Index(source, p)) {
      r := Index(source, p);
      assert r == sourceValue;
      assert dest.Ref? ==> dest.obj.props == old(dest.obj.props);
      Assign(dest, p, r);
      assert roundTrips ==> Walk(dest, Split(p)) == Index(dest, p) == r;
      return r;
    }
    TruthyLeafOfUpdate(source, p);
    // Past the shortcut the path is nested. `lastPart in sourceParentObject` would
    // throw on a primitive, but the parent of a truthy value is always an object
    // holding the key, so this branch is never taken.
    if !Truthy(sourceParentObject) || lastPart !in sourceParentObject.obj.props {
      assert false;
      return Undefined;
    }
    r := SetDescendantProperty(dest, path, sourceValue);
  }

  /** The lookups at the head of `updateDescendantProperty`: whether the path is
      nested, the value currently at the path in `dest` (read and never used),
      the value at the path in `source`, the last segment, and the value `get`
      finds in `source` at the parent path. */
  method LookUpSource(dest: Value, source: Value, path: string)
    returns (isDescendentProp: bool, sourceValue: Value, lastPart: string, sourceParentObject: Value)
    requires Truthy(dest) && Truthy(source)
    ensures isDescendentProp <==> !IsTopLevel(path)
    ensures sourceValue == Walk(source, Split(path))
    ensures lastPart == Last(Split(path))
    ensures isDescendentProp ==> sourceParentObject == Parent(source, path)
  {
    isDescendentProp := !IsTopLevel(path);
    var originalValue := GetDescendantProperty(dest, path);
    sourceValue := GetDescendantProperty(source, path);
    var pathParts := Split(path);
    var parentPath := Join(Init(pathParts));
    lastPart := Last(pathParts);
    if isDescendentProp {
      ParentPath(path);
    }
    sourceParentObject := GetDescendantProperty(source, parentPath);
  }

  /** `updateDescendantProperty(dest, source, path)`, step by step as written: the
      argument guard, the lookups, the falsy check on the source value, and the
      copy. The outcome is always `UpdateSpec`. */
  method UpdateDescendantProperty(dest: Value, source: Value, path: Value) returns (r: Value)
    requires PathArgument(path)
    modifies UpdateSpec(dest, source, path).effect.Frame()
    ensures var o := old(UpdateSpec(dest, source, path));
      && r == o.result
      && (o.effect.WriteKey? ==> o.effect.target.props == old(o.effect.target.props)[o.effect.key := r])
    ensures old(UpdateRoundTrips(dest, source, path)) ==>
      Walk(dest, Split(path.s)) == old(Walk(source, Split(path.s)))
  {
    if !(Truthy(dest) && Truthy(source) && Truthy(path)) {
      return Undefined;
    }
    ghost var spec := UpdateSpec(dest, source, path);
    ghost var updateRoundTrips := UpdateRoundTrips(dest, source, path);
    var isDescendentProp, sourceValue, lastPart, sourceParentObject := LookUpSource(dest, source, path.s);
    // The lookups only read: every specification function keeps its value.
    assert spec == UpdateSpec(dest, source, path);
    assert updateRoundTrips == UpdateRoundTrips(dest, source, path);
    assert spec.effect.WriteKey? ==> spec.effect.target.props == old(spec.effect.target.props);
    if !Truthy(sourceValue) {
      return Undefined;
    }
    r := CopyFoundValue(dest, source, path, isDescendentProp, sourceValue, sourceParentObject, lastPart);
  }
}
