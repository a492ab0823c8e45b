/**
  Lexical normalisation of daemon file paths (canonicalize_path in
  client/gdaemonfile.c), stated over path segments.

  A path is read as a sequence of '/'-separated segments.  Empty segments and
  "." are dropped, ".." removes the nearest kept segment (and is dropped at the
  root), every other segment is kept.  The canonical path is a root followed by
  the kept segments joined with single slashes.  The root is "/" except when the
  input starts with two or more slashes and some segment survives: the source
  then keeps a doubled root "//".
*/
module PathSpec {
  import opened Wrappers

  type Path = seq<char>

  /** Number of characters before the first '/' of `s` (all of `s` if none). */
  function SegLen(s: Path): (k: nat)
    ensures k <= |s|
    ensures s != [] && s[0] != '/' ==> k > 0
  {
    if s == [] || s[0] == '/' then 0 else 1 + SegLen(s[1..])
  }

  /** SegLen(s) characters without a slash, then a slash or the end. */
  lemma {:induction false} SegLenSpec(s: Path)
    ensures forall i :: 0 <= i < SegLen(s) ==> s[i] != '/'
    ensures SegLen(s) < |s| ==> s[SegLen(s)] == '/'
  {
    if s != [] && s[0] != '/' {
      SegLenSpec(s[1..]);
      assert forall i :: 1 <= i < SegLen(s) ==> s[i] == s[1..][i - 1];
    }
  }

  lemma {:induction false} SegLenUnique(s: Path, m: nat)
    requires m <= |s|
    requires forall i :: 0 <= i < m ==> s[i] != '/'
    requires m < |s| ==> s[m] == '/'
    ensures SegLen(s) == m
  {
    if m > 0 {
      assert s[0] != '/';
      assert forall i :: 0 <= i < m - 1 ==> s[1..][i] == s[i + 1];
      SegLenUnique(s[1..], m - 1);
    }
  }

  /** The segment "." (the current directory). */
  predicate IsDot(seg: Path) {
    |seg| == 1 && seg[0] == '.'
  }

  /** The segment ".." (the parent directory). */
  predicate IsDotDot(seg: Path) {
    |seg| == 2 && seg[0] == '.' && seg[1] == '.'
  }

  /** A segment that may appear in a canonical path. */
  predicate ValidSegment(seg: Path) {
    |seg| > 0 && (forall i :: 0 <= i < |seg| ==> seg[i] != '/') && !IsDot(seg) && !IsDotDot(seg)
  }

  predicate AllValid(segs: seq<Path>) {
    forall i :: 0 <= i < |segs| ==> ValidSegment(segs[i])
  }

  /** Drop the last kept segment; at the root there is nothing to drop. */
  function Pop(stack: seq<Path>): seq<Path> {
    if stack == [] then [] else stack[..|stack| - 1]
  }

  /** The effect of one non-empty segment on the kept segments. */
  function Step(stack: seq<Path>, seg: Path): seq<Path> {
    if IsDot(seg) then stack
    else if IsDotDot(seg) then Pop(stack)
    else stack + [seg]
  }

  /** Process the segments of `rest`, left to right, on top of `stack`. */
  function Resolve(stack: seq<Path>, rest: Path): seq<Path>
    decreases |rest|
  {
    if rest == [] then stack
    else if rest[0] == '/' then Resolve(stack, rest[1..])
    else Resolve(Step(stack, rest[..SegLen(rest)]), rest[SegLen(rest)..])
  }

  /** Segments separated by single slashes. */
  function Join(segs: seq<Path>): Path {
    if segs == [] then []
    else if |segs| == 1 then segs[0]
    else segs[0] + "/" + Join(segs[1..])
  }

  /** Segments, each followed by a slash. */
  function JoinTrail(segs: seq<Path>): Path {
    if segs == [] then [] else segs[0] + "/" + JoinTrail(segs[1..])
  }

  /** The path after the leading slash that canonicalize_path adds or keeps. */
  function Body(path: Path): Path {
    if path != [] && path[0] == '/' then path[1..] else path
  }

  /** The input starts with at least two slashes. */
  predicate DoubleRoot(path: Path) {
    Body(path) != [] && Body(path)[0] == '/'
  }

  function Root(double: bool): Path {
    if double then "//" else "/"
  }

  /** The result of canonicalize_path. */
  function CanonicalPath(path: Path): (r: Path)
    ensures |r| > 0 && r[0] == '/'
  {
    var segs := Resolve([], Body(path));
    Root(DoubleRoot(path) && segs != []) + Join(segs)
  }

  predicate IsCanonical(path: Path) {
    CanonicalPath(path) == path
  }

  /** The '/'-separated components of `s`, empty ones included. */
  function Components(s: Path): seq<Path>
    decreases |s|
  {
    var k := SegLen(s);
    if k == |s| then [s] else [s[..k]] + Components(s[k + 1..])
  }

  /** Number of root slashes of a canonical path ("//" roots have two). */
  function RootLength(r: Path): nat {
    if |r| > 1 && r[1] == '/' then 2 else 1
  }

  // ---------------------------------------------------------------------
  // Joining segments

  lemma {:induction false} JoinTrailSnoc(segs: seq<Path>, s: Path)
    ensures JoinTrail(segs + [s]) == JoinTrail(segs) + s + "/"
  {
    if segs != [] {
      assert (segs + [s])[1..] == segs[1..] + [s];
      JoinTrailSnoc(segs[1..], s);
    }
  }

  lemma {:induction false} JoinSnoc(segs: seq<Path>, s: Path)
    ensures Join(segs + [s]) == JoinTrail(segs) + s
  {
    if segs != [] {
      assert (segs + [s])[1..] == segs[1..] + [s];
      JoinSnoc(segs[1..], s);
    }
  }

  lemma JoinTrailJoin(segs: seq<Path>)
    requires segs != []
    ensures JoinTrail(segs) == Join(segs) + "/"
  {
    var init, last := segs[..|segs| - 1], segs[|segs| - 1];
    assert segs == init + [last];
    JoinTrailSnoc(init, last);
    JoinSnoc(init, last);
  }

  // ---------------------------------------------------------------------
  // Resolving segments

  lemma ResolveSlash(stack: seq<Path>, rest: Path)
    ensures Resolve(stack, "/" + rest) == Resolve(stack, rest)
  {
    assert ("/" + rest)[1..] == rest;
  }

  /** Leading slashes do not change what a path resolves to. */
  lemma {:induction false} ResolveSkipsSlashes(stack: seq<Path>, rest: Path, j: nat)
    requires j <= |rest|
    requires forall i :: 0 <= i < j ==> rest[i] == '/'
    ensures Resolve(stack, rest) == Resolve(stack, rest[j..])
  {
    if j > 0 {
      ResolveSkipsSlashes(stack, rest[1..], j - 1);
      assert rest[1..][j - 1..] == rest[j..];
    }
  }

  /** A leading segment `seg`, ended by a slash or by the end of the path, takes one Step. */
  lemma ResolveSegment(stack: seq<Path>, seg: Path, tail: Path)
    requires seg != [] && forall i :: 0 <= i < |seg| ==> seg[i] != '/'
    requires tail == [] || tail[0] == '/'
    ensures Resolve(stack, seg + tail) == Resolve(Step(stack, seg), tail)
  {
    var rest := seg + tail;
    SegLenUnique(rest, |seg|);
    assert rest[..|seg|] == seg && rest[|seg|..] == tail;
  }

  /** Kept segments are always valid. */
  lemma {:induction false} ResolveValid(stack: seq<Path>, rest: Path)
    requires AllValid(stack)
    ensures AllValid(Resolve(stack, rest))
    decreases |rest|
  {
    if rest == [] {
    } else if rest[0] == '/' {
      ResolveValid(stack, rest[1..]);
    } else {
      var seg := rest[..SegLen(rest)];
      SegLenSpec(rest);
      if !IsDot(seg) && !IsDotDot(seg) {
        assert ValidSegment(seg);
      }
      assert AllValid(Step(stack, seg));
      ResolveValid(Step(stack, seg), rest[SegLen(rest)..]);
    }
  }

  /** Resolving the join of valid segments gives back exactly those segments. */
  lemma {:induction false} ResolveJoin(stack: seq<Path>, segs: seq<Path>)
    requires AllValid(segs)
    ensures Resolve(stack, Join(segs)) == stack + segs
    decreases |segs|
  {
    if segs == [] {
      assert stack + segs == stack;
    } else if |segs| == 1 {
      assert ValidSegment(segs[0]);
      ResolveSegment(stack, segs[0], []);
      assert segs[0] + [] == segs[0];
    } else {
      assert ValidSegment(segs[0]) && AllValid(segs[1..]);
      ResolveJoinStep(stack, segs);
      ResolveJoin(stack + [segs[0]], segs[1..]);
      assert stack + [segs[0]] + segs[1..] == stack + segs;
    }
  }

  /** The first of several joined segments is pushed, and its slash skipped. */
  lemma ResolveJoinStep(stack: seq<Path>, segs: seq<Path>)
    requires |segs| > 1 && ValidSegment(segs[0])
    ensures Resolve(stack, Join(segs)) == Resolve(stack + [segs[0]], Join(segs[1..]))
  {
    var rest := Join(segs[1..]);
    assert Join(segs) == segs[0] + ("/" + rest);
    ResolveSegment(stack, segs[0], "/" + rest);
    ResolveSlash(stack + [segs[0]], rest);
  }

  /** Resolution is compositional at a slash. */
  lemma {:induction false} ResolveAppend(stack: seq<Path>, x: Path, y: Path)
    ensures Resolve(stack, x + "/" + y) == Resolve(Resolve(stack, x), y)
    decreases |x|
  {
    if x == [] {
      assert x + "/" + y == "/" + y;
      ResolveSlash(stack, y);
    } else if x[0] == '/' {
      assert (x + "/" + y)[1..] == x[1..] + "/" + y;
      ResolveAppend(stack, x[1..], y);
    } else {
      var k := SegLen(x);
      var seg := x[..k];
      SegLenSpec(x);
      assert x == seg + x[k..];
      assert x + "/" + y == seg + (x[k..] + "/" + y);
      ResolveSegment(stack, seg, x[k..] + "/" + y);
      ResolveSegment(stack, seg, x[k..]);
      ResolveAppend(Step(stack, seg), x[k..], y);
    }
  }

  /** Slashes at the end of a path change nothing. */
  lemma ResolveTrailingSlashes(stack: seq<Path>, x: Path, slashes: Path)
    requires forall i :: 0 <= i < |slashes| ==> slashes[i] == '/'
    ensures Resolve(stack, x + slashes) == Resolve(stack, x)
  {
    if slashes != [] {
      var rest := slashes[1..];
      assert x + slashes == x + "/" + rest;
      ResolveAppend(stack, x, rest);
      var r := Resolve(stack, x);
      ResolveSkipsSlashes(r, rest, |rest|);
      assert rest[|rest|..] == [];
      assert Resolve(r, []) == r;
    } else {
      assert x + slashes == x;
    }
  }


  /** A trailing ".." segment removes the nearest kept segment, or nothing at the root. */
  lemma DotDotRemovesLastSegment(stack: seq<Path>, x: Path)
    ensures Resolve(stack, x + "/..") == Pop(Resolve(stack, x))
  {
    assert x + "/.." == x + "/" + "..";
    ResolveAppend(stack, x, "..");
    ResolveSegment(Resolve(stack, x), "..", []);
    assert ".." + [] == "..";
  }

  /** A trailing "." segment changes nothing. */
  lemma DotIsDropped(stack: seq<Path>, x: Path)
    ensures Resolve(stack, x + "/.") == Resolve(stack, x)
  {
    assert x + "/." == x + "/" + ".";
    ResolveAppend(stack, x, ".");
    ResolveSegment(Resolve(stack, x), ".", []);
    assert "." + [] == ".";
  }

  /** ".." at the root is dropped: a path cannot climb above "/". */
  lemma DotDotAtRootIsDropped(rest: Path)
    ensures Resolve([], "../" + rest) == Resolve([], rest)
  {
    assert "../" + rest == ".." + ("/" + rest);
    ResolveSegment([], "..", "/" + rest);
    ResolveSlash([], rest);
  }

  // ---------------------------------------------------------------------
  // The shape of a canonical path

  /** The canonical path is a root followed by valid segments joined by single slashes. */
  lemma CanonicalForm(path: Path)
    ensures AllValid(Resolve([], Body(path)))
    ensures CanonicalPath(path)
            == Root(DoubleRoot(path) && Resolve([], Body(path)) != []) + Join(Resolve([], Body(path)))
  {
    ResolveValid([], Body(path));
  }

  /** No empty segment: no leading, trailing or doubled slash. */
  predicate SlashSeparated(s: Path) {
    s != [] && s[0] != '/' && s[|s| - 1] != '/'
    && forall i :: 0 <= i < |s| - 1 ==> s[i] != '/' || s[i + 1] != '/'
  }

  lemma SlashSeparatedJoin2(a: Path, b: Path)
    requires SlashSeparated(a) && SlashSeparated(b)
    ensures SlashSeparated(a + "/" + b)
  {
    var s := a + "/" + b;
    forall i | 0 <= i < |s| - 1
      ensures s[i] != '/' || s[i + 1] != '/'
    {
      if i < |a| - 1 {
        assert s[i] == a[i] && s[i + 1] == a[i + 1];
      } else if i == |a| - 1 {
        assert s[i] == a[|a| - 1];
      } else if i == |a| {
        assert s[i + 1] == b[0];
      } else {
        assert s[i] == b[i - |a| - 1] && s[i + 1] == b[i - |a|];
      }
    }
  }

  lemma {:induction false} SlashSeparatedJoin(segs: seq<Path>)
    requires segs != [] && AllValid(segs)
    ensures SlashSeparated(Join(segs))
  {
    assert ValidSegment(segs[0]);
    if |segs| > 1 {
      assert AllValid(segs[1..]);
      SlashSeparatedJoin(segs[1..]);
      SlashSeparatedJoin2(segs[0], Join(segs[1..]));
    }
  }

  /**
    After canonicalisation there is no trailing slash unless the result is
    "/", and no two consecutive slashes except at a doubled root, which only an
    input starting with two or more slashes produces.
  */
  lemma CanonicalSeparators(path: Path)
    ensures var r := CanonicalPath(path);
      && (r == "/" || r[|r| - 1] != '/')
      && (forall i :: 1 <= i < |r| - 1 ==> r[i] != '/' || r[i + 1] != '/')
      && (|r| > 1 && r[1] == '/' <==> DoubleRoot(path) && r != "/")
  {
    var segs := Resolve([], Body(path));
    CanonicalForm(path);
    var r := CanonicalPath(path);
    if segs != [] {
      SlashSeparatedJoin(segs);
      var J := Join(segs);
      var root := Root(DoubleRoot(path));
      assert r == root + J;
      forall i | 1 <= i < |r| - 1
        ensures r[i] != '/' || r[i + 1] != '/'
      {
        if i >= |root| {
          assert r[i] == J[i - |root|] && r[i + 1] == J[i - |root| + 1];
        } else {
          assert r[i + 1] == J[0];
        }
      }
      assert r[|r| - 1] == J[|J| - 1];
    }
  }

  lemma {:induction false} ComponentsJoin(segs: seq<Path>)
    requires segs != [] && AllValid(segs)
    ensures Components(Join(segs)) == segs
  {
    var s := segs[0];
    assert ValidSegment(s);
    if |segs| == 1 {
      SegLenUnique(s, |s|);
    } else {
      var J := Join(segs);
      assert J == s + "/" + Join(segs[1..]);
      SegLenUnique(J, |s|);
      assert J[..|s|] == s && J[|s| + 1..] == Join(segs[1..]);
      assert AllValid(segs[1..]);
      ComponentsJoin(segs[1..]);
    }
  }

  /**
    Every component after the root of a canonical path other than "/" is a
    valid segment: none is empty, ".", or "..".
  */
  lemma CanonicalComponents(path: Path)
    ensures var r := CanonicalPath(path);
      r == "/" || AllValid(Components(r[RootLength(r)..]))
  {
    var segs := Resolve([], Body(path));
    CanonicalForm(path);
    var r := CanonicalPath(path);
    if segs != [] {
      var root := Root(DoubleRoot(path));
      SlashSeparatedJoin(segs);
      assert r == root + Join(segs);
      assert RootLength(r) == |root|;
      assert r[RootLength(r)..] == Join(segs);
      ComponentsJoin(segs);
    }
  }

  /** Canonicalising a canonical path changes nothing. */
  lemma CanonicalIdempotent(path: Path)
    ensures IsCanonical(CanonicalPath(path))
  {
    var segs := Resolve([], Body(path));
    CanonicalForm(path);
    var r := CanonicalPath(path);
    var dbl := DoubleRoot(path) && segs != [];
    if segs == [] {
      assert r == "/";
      assert Body(r) == [];
    } else {
      SlashSeparatedJoin(segs);
      var J := Join(segs);
      assert r == Root(dbl) + J;
      if dbl {
        assert Body(r) == "/" + J;
        ResolveSlash([], J);
      } else {
        assert Body(r) == J;
      }
      ResolveJoin([], segs);
      assert Resolve([], Body(r)) == segs;
      assert DoubleRoot(r) == dbl;
    }
  }

  /** A segment followed by ".." cancels out, and "." is dropped, wherever they stand. */
  lemma DotAndDotDot(stack: seq<Path>, a: Path, b: Path, c: Path)
    requires ValidSegment(b)
    ensures Resolve(stack, (a + "/." + "/" + b + "/..") + "/" + c) == Resolve(Resolve(stack, a), c)
  {
    var x1 := a + "/.";
    DotIsDropped(stack, a);
    var x2 := x1 + "/" + b;
    ResolveAppend(stack, x1, b);
    ResolveSegment(Resolve(stack, a), b, []);
    assert b + [] == b;
    var x3 := x2 + "/..";
    DotDotRemovesLastSegment(stack, x2);
    ResolveAppend(stack, x3, c);
  }

  /** Worked example: a relative path with "." and "..". */
  lemma CanonicalExampleRelative(p: Path)
    requires p == "a/./b/../c"
    ensures CanonicalPath(p) == "/a/c"
  {
    var a, b, c: Path := "a", "b", "c";
    assert p == (a + "/." + "/" + b + "/..") + "/" + c;
    DotAndDotDot([], a, b, c);
    ResolveSegment([], a, []);
    ResolveSegment([a], c, []);
    assert a + [] == a && c + [] == c;
    assert Body(p) == p;
    var segs: seq<Path> := [a, c];
    assert Join(segs) == segs[0] + "/" + Join(segs[1..]);
    assert segs[1..] == [c];
  }

  /** Worked example: ".." segments at the root are dropped. */
  lemma CanonicalExampleAboveRoot(p: Path)
    requires p == "../../x"
    ensures CanonicalPath(p) == "/x"
  {
    assert p == "../" + "../x";
    DotDotAtRootIsDropped("../x");
    assert "../x" == "../" + "x";
    DotDotAtRootIsDropped("x");
    ResolveSegment([], "x", []);
    assert "x" + [] == "x";
    assert Body(p) == p;
    assert Join(["x"]) == "x";
  }

  /** Worked example: a doubled root is kept. */
  lemma CanonicalExampleDoubleRoot(p: Path)
    requires p == "//a"
    ensures CanonicalPath(p) == "//a"
  {
    assert Body(p) == "/" + "a";
    ResolveSlash([], "a");
    ResolveSegment([], "a", []);
    assert "a" + [] == "a";
  }
}
