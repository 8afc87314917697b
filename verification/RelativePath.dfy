/**
 Relative paths (crates/workflow-core/src/path.rs).  A `char` stands for one byte
 of the UTF-8 text, which is how the source indexes and splits it.
 */
module RelativePath {

  function Segments(path: string): (parts: seq<string>)
    ensures |parts| > 0
  {
    if path == "" then [""]
    else
      var rest := Segments(path[1..]);
      if path[0] == '/' then [""] + rest else [[path[0]] + rest[0]] + rest[1..]
  }

  /** `is_safe_relative` and `safe_relative_path`. */
  predicate IsSafeRelative(path: string) {
    && path != "" && '\\' !in path && path[0] != '/'
    && !(|path| > 1 && path[1] == ':')
    && forall i :: 0 <= i < |Segments(path)| ==> Segments(path)[i] !in {"", ".", ".."}
  }

  /** The directory reached from `base` by one component after the other. */
  function Resolved(base: seq<string>, parts: seq<string>): seq<string>
    decreases |parts|
  {
    if parts == [] then base
    else
      var next :=
        if parts[0] in {"", "."} then base
        else if parts[0] == ".." then (if base == [] then [] else base[..|base| - 1])
        else base + [parts[0]];
      Resolved(next, parts[1..])
  }

  /** Every component leads one level down, or the end is not as deep as their number. */
  lemma {:induction false} EachGoesDown(base: seq<string>, parts: seq<string>)
    ensures |Resolved(base, parts)| <= |base| + |parts|
    ensures |Resolved(base, parts)| == |base| + |parts| <==>
              forall i :: 0 <= i < |parts| ==> parts[i] !in {"", ".", ".."}
    ensures |Resolved(base, parts)| == |base| + |parts| ==> Resolved(base, parts) == base + parts
    decreases |parts|
  {
    if parts == [] {
      assert base + [] == base;
    } else {
      var next :=
        if parts[0] in {"", "."} then base
        else if parts[0] == ".." then (if base == [] then [] else base[..|base| - 1])
        else base + [parts[0]];
      EachGoesDown(next, parts[1..]);
      assert forall i :: 1 <= i < |parts| ==> parts[i] == parts[1..][i - 1];
      assert base + parts == (base + [parts[0]]) + parts[1..];
    }
  }

  /** A path is safe exactly when it names no drive, has no backslash, and leads from any
      directory downwards only, component by component. */
  lemma SafeMeans(base: seq<string>, path: string)
    ensures IsSafeRelative(path) <==>
              && '\\' !in path && !(|path| > 1 && path[1] == ':')
              && Resolved(base, Segments(path)) == base + Segments(path)
  {
    EachGoesDown(base, Segments(path));
    if path == "" || path[0] == '/' { assert Segments(path)[0] == ""; }
  }

  /** The components are what stands between the slashes. */
  function Joined(parts: seq<string>): string {
    if parts == [] then ""
    else if |parts| == 1 then parts[0]
    else parts[0] + "/" + Joined(parts[1..])
  }

  lemma {:induction false} SegmentsJoin(path: string)
    ensures Joined(Segments(path)) == path && forall i :: 0 <= i < |Segments(path)| ==> '/' !in Segments(path)[i]
  {
    if path != "" {
      var rest := Segments(path[1..]);
      SegmentsJoin(path[1..]);
      assert path == [path[0]] + path[1..];
      if path[0] == '/' {
        assert ([""] + rest)[1..] == rest;
      } else {
        var parts := [[path[0]] + rest[0]] + rest[1..];
        assert Segments(path) == parts && parts[1..] == rest[1..];
        if |rest| == 1 {
          assert Joined(rest) == rest[0];
        } else {
          assert Joined(parts) == [path[0]] + (rest[0] + "/" + Joined(rest[1..]));
        }
      }
    }
  }

  /** `overlaps`: equal, or one continues the other after a slash. */
  predicate Overlaps(first: string, second: string) {
    || first == second
    || (second <= first && [] != first[|second|..] && first[|second|] == '/')
    || (first <= second && [] != second[|first|..] && second[|first|] == '/')
  }

  /** A path lies in a write scope when it is the scope itself or below it. */
  predicate InScope(path: string, scope: string) {
    path == scope || scope + "/" <= path
  }

  lemma PrefixesOfOne(a: string, b: string, path: string)
    requires a + "/" <= path && b + "/" <= path && |a| < |b|
    ensures a + "/" <= b
  {
    assert a + "/" == path[..|a| + 1] == (b + "/")[..|a| + 1] == b[..|a| + 1];
  }

  /** Two scopes overlap exactly when some path lies in both. */
  lemma OverlapMeansSharedPath(a: string, b: string)
    ensures Overlaps(a, b) <==> exists path :: InScope(path, a) && InScope(path, b)
  {
    if Overlaps(a, b) {
      var path := if b <= a then a else b;
      if a != b {
        assert if b <= a then b + "/" == a[..|b| + 1] else a + "/" == b[..|a| + 1];
      }
      assert InScope(path, a) && InScope(path, b);
    }
    forall path | InScope(path, a) && InScope(path, b) ensures Overlaps(a, b) {
      if a + "/" <= path && b + "/" <= path {
        if |a| < |b| {
          PrefixesOfOne(a, b, path);
          assert b[..|a|] == a;
        } else if |b| < |a| {
          PrefixesOfOne(b, a, path);
          assert a[..|b|] == b;
        } else {
          assert a == path[..|a|] == b;
        }
      } else if path == a && path != b {
        assert a[..|b|] == b && a[|b|] == '/';
      } else if path == b && path != a {
        assert b[..|a|] == a && b[|a|] == '/';
      }
    }
  }
}
