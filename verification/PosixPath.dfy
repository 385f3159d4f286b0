/**
 * Absolute POSIX paths as strings and as lists of segments, and the string tests on them that
 * pathKit of scripts/safe-cleanup.ts is made of.
 */
module PosixPath {
  import opened Lists

  predicate IsAbsolute(path: string) {
    path != "" && path[0] == '/'
  }

  /** A segment that stands for a directory entry. */
  predicate IsName(segment: string) {
    segment != "" && segment != "." && segment != ".." && '/' !in segment
  }

  predicate AreNames(segments: seq<string>) {
    forall i :: 0 <= i < |segments| ==> IsName(segments[i])
  }

  function Enter(segments: seq<string>, part: string): seq<string> {
    if part == "" || part == "." then segments
    else if part == ".." then (if segments == [] then [] else segments[..|segments| - 1])
    else segments + [part]
  }

  function EnterAll(segments: seq<string>, parts: seq<string>): seq<string> {
    if parts == [] then segments else Enter(EnterAll(segments, parts[..|parts| - 1]), parts[|parts| - 1])
  }

  /** The segments of an absolute path, with `.`, `..` and doubled separators worked out. */
  function Segments(path: string): seq<string> {
    EnterAll([], Split(path, '/'))
  }

  /** The absolute path with these segments and no trailing separator. */
  function Path(segments: seq<string>): string {
    "/" + if segments == [] then "" else Join(segments, '/')
  }

  function Resolve(path: string): string {
    Path(Segments(path))
  }

  predicate IsResolved(path: string) {
    path == Resolve(path)
  }

  predicate EndsWithSeparator(path: string) {
    path != "" && path[|path| - 1] == '/'
  }

  /** Normalizing keeps a trailing separator. */
  function Normalize(path: string): string {
    Resolve(path) + if EndsWithSeparator(path) && Segments(path) != [] then "/" else ""
  }

  lemma {:induction false} EnterAllNames(segments: seq<string>, parts: seq<string>)
    requires AreNames(segments) && forall i :: 0 <= i < |parts| ==> '/' !in parts[i]
    ensures AreNames(EnterAll(segments, parts))
  {
    if parts != [] {
      EnterAllNames(segments, parts[..|parts| - 1]);
    }
  }

  lemma SegmentsAreNames(path: string)
    ensures AreNames(Segments(path))
  {
    hide Split;
    SplitParts(path, '/');
    EnterAllNames([], Split(path, '/'));
  }

  lemma {:induction false} EnterNames(segments: seq<string>, names: seq<string>)
    requires AreNames(names)
    ensures EnterAll(segments, names) == segments + names
  {
    if names != [] {
      EnterNames(segments, names[..|names| - 1]);
    }
  }

  lemma {:induction false} EnterAllConcat(segments: seq<string>, a: seq<string>, b: seq<string>)
    ensures EnterAll(segments, a + b) == EnterAll(EnterAll(segments, a), b)
  {
    hide Enter;
    if b == [] {
      assert a + b == a;
    } else {
      assert (a + b)[..|a + b| - 1] == a + b[..|b| - 1];
      EnterAllConcat(segments, a, b[..|b| - 1]);
    }
  }

  lemma EnterNothing(segments: seq<string>)
    ensures EnterAll(segments, [""]) == segments
  {
    assert [""][..0] == [];
  }

  /** Segments are read back from the path they make. */
  lemma SegmentsOfPath(segments: seq<string>)
    requires AreNames(segments)
    ensures Segments(Path(segments)) == segments
  {
    hide Split, Join, EnterAll, IsName;
    var tail := if segments == [] then "" else Join(segments, '/');
    assert Path(segments) == "" + "/" + tail;
    SplitStep("", '/', tail);
    EnterAllConcat([], [""], Split(tail, '/'));
    EnterNothing([]);
    if segments == [] {
      SplitNone("", '/');
    } else {
      assert forall i :: 0 <= i < |segments| ==> '/' !in segments[i] by { NamesHaveNoSeparator(segments); }
      SplitJoin(segments, '/');
      EnterNames([], segments);
    }
  }

  lemma NamesHaveNoSeparator(segments: seq<string>)
    requires AreNames(segments)
    ensures forall i :: 0 <= i < |segments| ==> '/' !in segments[i] && segments[i] != ""
  {
  }

  /** Resolving a path that is resolved changes nothing. */
  lemma ResolveTwice(path: string)
    ensures IsResolved(Resolve(path)) && Segments(Resolve(path)) == Segments(path)
  {
    hide Segments;
    SegmentsAreNames(path);
    SegmentsOfPath(Segments(path));
  }

  lemma LastCharacter(segments: seq<string>)
    requires AreNames(segments) && segments != []
    ensures !EndsWithSeparator(Path(segments))
  {
    hide Join;
    var n := |segments| - 1;
    var last := segments[n];
    assert IsName(last);
    if n == 0 {
      JoinOne(segments, '/');
    } else {
      assert segments == segments[..n] + [last];
      JoinConcat(segments[..n], [last], '/');
      JoinOne([last], '/');
    }
  }

  // ---- Letter case ----

  function Fold(caseInsensitive: bool, s: string): string {
    if caseInsensitive then Lower(s) else s
  }

  function FoldAll(caseInsensitive: bool, segments: seq<string>): (r: seq<string>)
    ensures |r| == |segments| && forall i :: 0 <= i < |r| ==> r[i] == Fold(caseInsensitive, segments[i])
  {
    seq(|segments|, i requires 0 <= i < |segments| => Fold(caseInsensitive, segments[i]))
  }

  /** The segments two paths are compared by. */
  function Keys(caseInsensitive: bool, path: string): seq<string> {
    FoldAll(caseInsensitive, Segments(path))
  }

  lemma LowerConcat(a: string, b: string)
    ensures Lower(a + b) == Lower(a) + Lower(b)
  {
  }

  lemma {:induction false} LowerJoin(segments: seq<string>)
    requires segments != []
    ensures Lower(Join(segments, '/')) == Join(FoldAll(true, segments), '/')
  {
    hide Lower;
    var folded := FoldAll(true, segments);
    if |segments| > 1 {
      LowerJoin(segments[1..]);
      assert folded[1..] == FoldAll(true, segments[1..]);
      LowerConcat(segments[0] + "/", Join(segments[1..], '/'));
      LowerConcat(segments[0], "/");
      assert Lower("/") == "/" by { LowerSeparator(); }
    }
  }

  lemma LowerSeparator()
    ensures Lower("/") == "/" && Lower("") == ""
  {
  }

  lemma FoldPath(caseInsensitive: bool, segments: seq<string>)
    ensures Fold(caseInsensitive, Path(segments)) == Path(FoldAll(caseInsensitive, segments))
  {
    hide Join, Lower;
    LowerSeparator();
    if caseInsensitive {
      if segments != [] {
        LowerJoin(segments);
        LowerConcat("/", Join(segments, '/'));
      }
    } else {
      assert FoldAll(caseInsensitive, segments) == segments;
    }
  }

  /** Segments that can be told apart in a joined path. */
  predicate Separable(segments: seq<string>) {
    forall i :: 0 <= i < |segments| ==> segments[i] != "" && '/' !in segments[i]
  }

  lemma KeysAreSeparable(caseInsensitive: bool, path: string)
    ensures Separable(Keys(caseInsensitive, path))
  {
    hide Segments;
    SegmentsAreNames(path);
    NamesHaveNoSeparator(Segments(path));
    var keys := Keys(caseInsensitive, path);
    forall i | 0 <= i < |keys| ensures '/' !in keys[i] && keys[i] != "" {
      forall j | 0 <= j < |keys[i]| ensures keys[i][j] != '/' {
        assert Segments(path)[i][j] != '/';
      }
    }
  }

  // ---- The string tests of pathKit ----

  function Norm(caseInsensitive: bool, path: string): string {
    Fold(caseInsensitive, Normalize(path))
  }

  function WithSeparator(path: string): string {
    if EndsWithSeparator(path) then path else path + "/"
  }

  predicate SamePath(caseInsensitive: bool, a: string, b: string) {
    Norm(caseInsensitive, a) == Norm(caseInsensitive, b)
  }

  predicate IsAncestorOrEqual(caseInsensitive: bool, ancestor: string, descendant: string) {
    var a, d := Norm(caseInsensitive, ancestor), Norm(caseInsensitive, descendant);
    a == d || WithSeparator(a) <= d
  }

  predicate StrictlyInside(caseInsensitive: bool, child: string, root: string) {
    var c, r := Norm(caseInsensitive, child), Norm(caseInsensitive, root);
    c != r && WithSeparator(r) <= c
  }

  /** Does the comparison string keep a trailing separator? */
  predicate Trailing(path: string) {
    EndsWithSeparator(path) && Segments(path) != []
  }

  lemma NormIs(caseInsensitive: bool, path: string)
    ensures Norm(caseInsensitive, path)
         == Path(Keys(caseInsensitive, path)) + if Trailing(path) then "/" else ""
  {
    hide Segments, Path, Lower;
    FoldPath(caseInsensitive, Segments(path));
    LowerConcat(Resolve(path), "/");
    LowerConcat(Resolve(path), "");
    LowerSeparator();
    assert Resolve(path) + "" == Resolve(path);
  }

  lemma SeparablePath(keys: seq<string>)
    requires Separable(keys)
    ensures Path(keys) == "/" <==> keys == []
    ensures keys != [] ==> !EndsWithSeparator(Path(keys)) && Split(Path(keys)[1..], '/') == keys
  {
    hide Join, Split;
    if keys != [] {
      var text, n := Join(keys, '/'), |keys| - 1;
      SplitJoin(keys, '/');
      assert Path(keys)[1..] == text;
      assert keys == keys[..n] + [keys[n]];
      JoinOne([keys[n]], '/');
      if n > 0 {
        JoinConcat(keys[..n], [keys[n]], '/');
      }
      assert keys[n] != "" && '/' !in keys[n];
      assert text[|text| - 1] == keys[n][|keys[n]| - 1];
      assert keys[n][|keys[n]| - 1] in keys[n];
    }
  }

  /** Two comparison paths are the same string exactly if they have the same segments. */
  lemma SameStringSameKeys(a: seq<string>, b: seq<string>)
    requires Separable(a) && Separable(b)
    ensures Path(a) == Path(b) <==> a == b
  {
    hide Path, Split;
    SeparablePath(a);
    SeparablePath(b);
  }

  /** One path followed by a separator begins another exactly if its segments begin the other's. */
  lemma PrefixStringPrefixKeys(a: seq<string>, d: seq<string>)
    requires Separable(a) && Separable(d)
    ensures WithSeparator(Path(a)) <= Path(d) <==> a <= d && (a == [] || a != d)
  {
    hide Join, Split;
    SeparablePath(a);
    SeparablePath(d);
    if a == [] {
      assert Path(a) == "/";
    } else {
      assert WithSeparator(Path(a)) == "/" + (Join(a, '/') + "/");
      if WithSeparator(Path(a)) <= Path(d) {
        assert d != [];
        var rest := Path(d)[|Path(a)| + 1..];
        assert Path(d)[1..] == Join(a, '/') + "/" + rest;
        SplitJoin(a, '/');
        SplitConcat(Join(a, '/'), '/', rest);
        assert d == a + Split(rest, '/');
      }
      if a <= d && a != d {
        var rest := d[|a|..];
        assert d == a + rest;
        JoinConcat(a, rest, '/');
      }
    }
  }

  // ---- The string tests say what the segments say ----

  /** The whole prefix test, separators at either end included. */
  lemma PrefixTest(a: seq<string>, aTrailing: bool, d: seq<string>, dTrailing: bool)
    requires Separable(a) && Separable(d) && (aTrailing ==> a != []) && (dTrailing ==> d != [])
    ensures WithSeparator(Path(a) + if aTrailing then "/" else "") <= Path(d) + (if dTrailing then "/" else "")
       <==> a <= d && (a == [] || a != d || dTrailing)
  {
    hide Path;
    SeparablePath(a);
    PrefixStringPrefixKeys(a, d);
    SameStringSameKeys(a, d);
    var text, longer := Path(d), Path(d) + if dTrailing then "/" else "";
    var begin := WithSeparator(Path(a));
    assert WithSeparator(Path(a) + if aTrailing then "/" else "") == begin;
    if dTrailing && a != [] {
      assert begin == Path(a) + "/" && longer == text + "/";
      if begin <= longer {
        if |begin| == |longer| {
          assert Path(a) == begin[..|begin| - 1] == longer[..|longer| - 1] == text;
        } else {
          assert begin <= text;
        }
      }
      if begin <= text {
        assert begin <= longer;
      }
    } else if dTrailing {
      assert Path(a) == "/" by { SeparablePath(a); }
      assert text[0] == '/' by { StartsAtRoot(d); }
    } else {
      assert longer == text;
    }
  }

  lemma StartsAtRoot(segments: seq<string>)
    ensures Path(segments) != "" && Path(segments)[0] == '/'
  {
  }

  lemma SameTest(ci: bool, a: string, b: string)
    ensures SamePath(ci, a, b) <==> Keys(ci, a) == Keys(ci, b) && Trailing(a) == Trailing(b)
  {
    hide Path, Keys, Norm, Trailing;
    NormIs(ci, a);
    NormIs(ci, b);
    KeysAreSeparable(ci, a);
    KeysAreSeparable(ci, b);
    TrailingKeys(ci, a);
    TrailingKeys(ci, b);
    SeparablePath(Keys(ci, a));
    SeparablePath(Keys(ci, b));
    SameStringSameKeys(Keys(ci, a), Keys(ci, b));
    StartsAtRoot(Keys(ci, a));
    StartsAtRoot(Keys(ci, b));
    EndsDiffer(Path(Keys(ci, a)), Path(Keys(ci, b)));
  }

  lemma EndsDiffer(x: string, y: string)
    ensures !EndsWithSeparator(x) ==> x != y + "/"
    ensures !EndsWithSeparator(y) ==> x + "/" != y
    ensures x + "/" == y + "/" ==> x == y
    ensures x + "" == x && y + "" == y
  {
    assert EndsWithSeparator(x + "/") && EndsWithSeparator(y + "/");
    assert (x + "/")[..|x|] == x && (y + "/")[..|y|] == y;
  }

  lemma TrailingKeys(ci: bool, path: string)
    ensures Trailing(path) ==> Keys(ci, path) != []
  {
  }

  /** The ancestor test is the segment-prefix test, except that a path written with a trailing separator is no ancestor of the same path without one. */
  lemma AncestorTest(ci: bool, ancestor: string, descendant: string)
    ensures IsAncestorOrEqual(ci, ancestor, descendant) <==>
              && Keys(ci, ancestor) <= Keys(ci, descendant)
              && (Trailing(ancestor) && Keys(ci, ancestor) == Keys(ci, descendant) ==> Trailing(descendant))
  {
    hide Path, Keys, Norm, Trailing, WithSeparator;
    NormIs(ci, ancestor);
    NormIs(ci, descendant);
    KeysAreSeparable(ci, ancestor);
    KeysAreSeparable(ci, descendant);
    TrailingKeys(ci, ancestor);
    TrailingKeys(ci, descendant);
    SameTest(ci, ancestor, descendant);
    PrefixTest(Keys(ci, ancestor), Trailing(ancestor), Keys(ci, descendant), Trailing(descendant));
  }

  /** The containment test is the proper-prefix test, except for the same path written with a trailing separator. */
  lemma InsideTest(ci: bool, child: string, root: string)
    ensures StrictlyInside(ci, child, root) <==>
              && Keys(ci, root) <= Keys(ci, child)
              && (Keys(ci, root) == Keys(ci, child) ==> Trailing(child) && !Trailing(root))
  {
    hide Path, Keys, Norm, Trailing, WithSeparator;
    NormIs(ci, child);
    NormIs(ci, root);
    KeysAreSeparable(ci, child);
    KeysAreSeparable(ci, root);
    TrailingKeys(ci, child);
    TrailingKeys(ci, root);
    SameTest(ci, child, root);
    PrefixTest(Keys(ci, root), Trailing(root), Keys(ci, child), Trailing(child));
  }

  lemma ResolvedIsNotTrailing(path: string)
    requires IsResolved(path)
    ensures !Trailing(path)
  {
    hide Segments, Join;
    SegmentsAreNames(path);
    if Segments(path) != [] {
      LastCharacter(Segments(path));
    }
  }

  /** On every path without a trailing separator both string tests are exactly the segment tests. */
  lemma UntrailedTests(ci: bool, path: string, other: string)
    requires !Trailing(path)
    ensures IsAncestorOrEqual(ci, path, other) <==> Keys(ci, path) <= Keys(ci, other)
    ensures StrictlyInside(ci, path, other) <==> Keys(ci, other) < Keys(ci, path)
  {
    hide Keys, Trailing, IsAncestorOrEqual, StrictlyInside;
    AncestorTest(ci, path, other);
    InsideTest(ci, path, other);
  }

  /** In particular on resolved paths. */
  lemma ResolvedTests(ci: bool, path: string, other: string)
    requires IsResolved(path)
    ensures IsAncestorOrEqual(ci, path, other) <==> Keys(ci, path) <= Keys(ci, other)
    ensures StrictlyInside(ci, path, other) <==> Keys(ci, other) < Keys(ci, path)
  {
    hide Keys, Trailing, IsAncestorOrEqual, StrictlyInside;
    ResolvedIsNotTrailing(path);
    UntrailedTests(ci, path, other);
  }

  /** A trailing separator changes the text of a path and not its segments. */
  lemma TrailingSegments(path: string)
    ensures Segments(path + "/") == Segments(path)
  {
    hide Split, EnterAll;
    assert path + "/" == path + "/" + "";
    SplitConcat(path, '/', "");
    SplitNone("", '/');
    EnterAllConcat([], Split(path, '/'), [""]);
    EnterNothing(EnterAll([], Split(path, '/')));
  }

  const SPELLED := "/a/b"

  /** The same directory with and without a separator: neither its own ancestor nor, one way round, outside itself. */
  lemma SeparatorFoolsTheTests()
    ensures Segments(SPELLED + "/") == Segments(SPELLED) == ["a", "b"]
    ensures !IsAncestorOrEqual(false, SPELLED + "/", SPELLED)
    ensures StrictlyInside(false, SPELLED + "/", SPELLED)
  {
    hide Segments, IsAncestorOrEqual, StrictlyInside;
    assert SPELLED == Path(["a", "b"]);
    SegmentsOfPath(["a", "b"]);
    TrailingSegments(SPELLED);
    AncestorTest(false, SPELLED + "/", SPELLED);
    InsideTest(false, SPELLED + "/", SPELLED);
  }

  // ---- Components between two paths ----

  function CommonLength(a: seq<string>, b: seq<string>): (n: nat)
    ensures n <= |a| && n <= |b| && a[..n] == b[..n]
    ensures n < |a| && n < |b| ==> a[n] != b[n]
  {
    if a == [] || b == [] || a[0] != b[0] then 0
    else
      var n := CommonLength(a[1..], b[1..]);
      assert a[..n + 1] == [a[0]] + a[1..][..n] && b[..n + 1] == [b[0]] + b[1..][..n];
      n + 1
  }

  function Ups(n: nat): seq<string> {
    if n == 0 then [] else Ups(n - 1) + [".."]
  }

  /** The parts of the relative path: up to the common ancestor, then down. */
  function Relative(from: seq<string>, to: seq<string>): seq<string> {
    var n := CommonLength(from, to);
    Ups(|from| - n) + to[n..]
  }

  /** The paths passed through when entering the parts one by one. */
  function Walk(segments: seq<string>, parts: seq<string>): seq<string> {
    if parts == [] then []
    else Walk(segments, parts[..|parts| - 1]) + [Path(EnterAll(segments, parts))]
  }

  function ComponentsBetween(root: string, target: string): seq<string> {
    Walk(Segments(root), Relative(Segments(root), Segments(target)))
  }

  method ListComponents(root: string, target: string) returns (components: seq<string>)
    ensures components == ComponentsBetween(root, target)
  {
    hide Enter, Segments;
    var parts := Relative(Segments(root), Segments(target));
    var current := Segments(root);
    components := [];
    for i := 0 to |parts|
      invariant current == EnterAll(Segments(root), parts[..i])
      invariant components == Walk(Segments(root), parts[..i])
    {
      assert parts[..i + 1][..i] == parts[..i];
      current := Enter(current, parts[i]);
      components := components + [Path(current)];
    }
    assert parts[..|parts|] == parts;
  }

  lemma {:induction false} UpsReach(segments: seq<string>, n: nat)
    requires n <= |segments|
    ensures EnterAll(segments, Ups(n)) == segments[..|segments| - n]
  {
    if n == 0 {
      assert segments[..|segments|] == segments;
    } else {
      UpsReach(segments, n - 1);
      assert Ups(n)[..|Ups(n)| - 1] == Ups(n - 1);
    }
  }

  lemma {:induction false} WalkVisits(segments: seq<string>, parts: seq<string>, k: nat)
    requires 0 < k <= |parts|
    ensures Path(EnterAll(segments, parts[..k])) in Walk(segments, parts)
  {
    hide EnterAll;
    var n := |parts| - 1;
    if k == |parts| {
      assert parts[..k] == parts;
    } else {
      WalkVisits(segments, parts[..n], k);
      assert parts[..n][..k] == parts[..k];
    }
  }

  /** Every directory on the way down to the target, below the common ancestor, is a component. */
  lemma ComponentsCover(root: string, target: string, k: nat)
    requires CommonLength(Segments(root), Segments(target)) < k <= |Segments(target)|
    ensures Path(Segments(target)[..k]) in ComponentsBetween(root, target)
  {
    hide Segments, EnterAll, Walk;
    var from, to := Segments(root), Segments(target);
    var n := CommonLength(from, to);
    var ups := Ups(|from| - n);
    var parts := Relative(from, to);
    var m := |ups| + (k - n);
    assert parts[..m] == ups + to[n..k];
    UpsReach(from, |from| - n);
    assert from[..|from| - (|from| - n)] == from[..n];
    EnterAllConcat(from, ups, to[n..k]);
    SegmentsAreNames(target);
    EnterNames(from[..n], to[n..k]);
    assert from[..n] + to[n..k] == to[..k];
    WalkVisits(from, parts, m);
  }
}
