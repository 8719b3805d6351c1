/** Dot-separated paths: `String.prototype.split('.')`, `Array.prototype.join('.')`
    and the top-level test `path.indexOf('.') === -1`, with the facts the accessor
    relies on when it splits a path, drops the last segment and joins the rest. */
module DotPath {

  const Separator: char := '.'

  /** True when no segment of `segs` contains the separator. */
  predicate SeparatorFree(segs: seq<string>) {
    forall i :: 0 <= i < |segs| ==> Separator !in segs[i]
  }

  /** `s.split('.')`: always at least one segment; empty segments are kept
      (`"".split('.')` is `[""]`, `"a..b".split('.')` is `["a", "", "b"]`). */
  function Split(s: string): (segs: seq<string>)
    ensures |segs| >= 1
    ensures SeparatorFree(segs)
    ensures Separator in s ==> |segs| >= 2
    decreases |s|
  {
    if |s| == 0 then [""]
    else
      assert s[0] != Separator && Separator in s ==> Separator in s[1..] by {
        if s[0] != Separator && Separator in s {
          var i :| 0 <= i < |s| && s[i] == Separator;
          assert s[1..][i - 1] == Separator;
        }
      }
      var rest := Split(s[1..]);
      if s[0] == Separator then [""] + rest
      else [[s[0]] + rest[0]] + rest[1..]
  }

  /** `segs.join('.')`; the empty list joins to `""`. */
  function Join(segs: seq<string>): string
    decreases |segs|
  {
    if |segs| == 0 then ""
    else if |segs| == 1 then segs[0]
    else segs[0] + [Separator] + Join(segs[1..])
  }

  /** `isTopLevel(path)`: the path contains no separator. */
  predicate IsTopLevel(path: string) {
    Separator !in path
  }

  /** A top-level path is exactly a path that splits into one segment, and that
      segment is the whole path. */
  lemma {:induction false} TopLevelIffOneSegment(path: string)
    ensures IsTopLevel(path) <==> |Split(path)| == 1
    ensures IsTopLevel(path) ==> Split(path) == [path]
    decreases |path|
  {
    if |path| > 0 {
      var rest := Split(path[1..]);
      TopLevelIffOneSegment(path[1..]);
      assert path == [path[0]] + path[1..];
      assert Separator in path <==> path[0] == Separator || Separator in path[1..];
    }
  }

  /** Joining the segments of a split gives the path back. */
  lemma {:induction false} JoinSplit(s: string)
    ensures Join(Split(s)) == s
    decreases |s|
  {
    if |s| > 0 {
      var rest := Split(s[1..]);
      JoinSplit(s[1..]);
      assert s == [s[0]] + s[1..];
      if s[0] == Separator {
        var t := [""] + rest;
        assert t[0] == "" && t[1..] == rest;
        assert Join(t) == "" + [Separator] + Join(rest);
      } else {
        JoinConsChar(s[0], rest);
      }
    }
  }

  /** Prepending a character to the first segment prepends it to the joined string. */
  lemma {:induction false} JoinConsChar(c: char, segs: seq<string>)
    requires |segs| >= 1
    ensures Join([[c] + segs[0]] + segs[1..]) == [c] + Join(segs)
  {
    var t := [[c] + segs[0]] + segs[1..];
    assert t[0] == [c] + segs[0] && t[1..] == segs[1..] && |t| == |segs|;
    if |segs| > 1 {
      calc {
        Join(t);
        t[0] + [Separator] + Join(t[1..]);
        [c] + (segs[0] + [Separator] + Join(segs[1..]));
        [c] + Join(segs);
      }
    }
  }

  /** Splitting a separator-free prefix glued to `t`: the prefix is glued to the
      first segment of `t`'s split, the remaining segments are unchanged. */
  lemma {:induction false} SplitSeparatorFreePrefix(a: string, t: string)
    requires Separator !in a
    ensures Split(a + t) == [a + Split(t)[0]] + Split(t)[1..]
    decreases |a|
  {
    if |a| > 0 {
      var s := a + t;
      assert s[0] == a[0] && s[1..] == a[1..] + t;
      SplitSeparatorFreePrefix(a[1..], t);
      assert [a[0]] + (a[1..] + Split(t)[0]) == a + Split(t)[0];
    } else {
      var st := Split(t);
      assert a + t == t && a + st[0] == st[0];
      assert st == [st[0]] + st[1..];
    }
  }

  /** Splitting `a.t` with a separator-free `a` yields `a` followed by `t`'s segments. */
  lemma SplitAtSeparator(a: string, t: string)
    requires Separator !in a
    ensures Split(a + [Separator] + t) == [a] + Split(t)
  {
    SplitSeparatorFreePrefix(a, [Separator] + t);
    assert a + [Separator] + t == a + ([Separator] + t);
    var u := [Separator] + t;
    assert u[1..] == t;
    assert Split(u) == [""] + Split(t);
    assert a + "" == a;
  }

  /** Splitting a join of separator-free segments gives the segments back. This is
      what lets the accessor join the parent segments into a string and hand it to
      `get`, which splits it again. */
  lemma {:induction false} SplitJoin(segs: seq<string>)
    requires |segs| >= 1 && SeparatorFree(segs)
    ensures Split(Join(segs)) == segs
    decreases |segs|
  {
    if |segs| > 1 {
      assert SeparatorFree(segs[1..]) by {
        forall i | 0 <= i < |segs| - 1 ensures Separator !in segs[1..][i] {
          assert segs[1..][i] == segs[i + 1];
        }
      }
      SplitJoin(segs[1..]);
      assert Separator !in segs[0];
      SplitAtSeparator(segs[0], Join(segs[1..]));
      assert segs == [segs[0]] + segs[1..];
    } else {
      TopLevelIffOneSegment(segs[0]);
    }
  }

  /** Joining with one more segment appends a separator and that segment. */
  lemma {:induction false} JoinSnoc(segs: seq<string>, last: string)
    requires |segs| >= 1
    ensures Join(segs + [last]) == Join(segs) + [Separator] + last
    decreases |segs|
  {
    var t := segs + [last];
    assert t[1..] == segs[1..] + [last];
    if |segs| > 1 {
      JoinSnoc(segs[1..], last);
    } else {
      assert t == [segs[0], last];
    }
  }

  /** The parent path of a nested path (all segments but the last, joined) splits
      back into exactly those segments, and the path is the parent path, a
      separator and the last segment. */
  lemma ParentPath(path: string)
    requires !IsTopLevel(path)
    ensures var segs := Split(path);
      && Split(Join(segs[..|segs| - 1])) == segs[..|segs| - 1]
      && path == Join(segs[..|segs| - 1]) + [Separator] + segs[|segs| - 1]
  {
    var segs := Split(path);
    TopLevelIffOneSegment(path);
    var init := segs[..|segs| - 1];
    assert SeparatorFree(init) by {
      forall i | 0 <= i < |init| ensures Separator !in init[i] {
        assert init[i] == segs[i];
      }
    }
    SplitJoin(init);
    JoinSplit(path);
    JoinSnoc(init, segs[|segs| - 1]);
    assert init + [segs[|segs| - 1]] == segs;
  }
}
