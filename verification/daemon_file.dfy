/**
  The file object of the daemon client: a mount specification and a path on
  that mount, with the path algebra that needs no daemon (basename, parent,
  equality, duplication and resolving a relative path).
*/
module DaemonFile {
  import opened Wrappers
  import opened PathSpec
  import Canonicalize

  /** A mount specification: the key/value items naming a mount, and its mount prefix. */
  datatype MountSpec = MountSpec(items: seq<(string, string)>, mountPrefix: Path)

  /** GDaemonFile: its mount specification and its path, both fixed once the object is built. */
  datatype File = File(spec: MountSpec, path: Path)

  /** The file g_daemon_file_new builds: the path is stored in canonical form. */
  function FileFor(spec: MountSpec, path: Path): (f: File)
    ensures f.spec == spec && IsCanonical(f.path) && f.path[0] == '/'
  {
    CanonicalIdempotent(path);
    File(spec, CanonicalPath(path))
  }

  /** g_daemon_file_new: keep the mount specification, canonicalise the path in place. */
  method New(spec: MountSpec, path: Path) returns (f: File)
    requires '\0' !in path
    ensures f == FileFor(spec, path)
  {
    var canon := Canonicalize.CanonicalizePath(path);
    f := File(spec, canon);
  }

  /** g_daemon_file_dup: a new file built from the same mount specification and path. */
  method Dup(f: File) returns (d: File)
    requires '\0' !in f.path
    ensures d == FileFor(f.spec, f.path)
  {
    d := New(f.spec, f.path);
  }

  /** Duplicating a file that g_daemon_file_new built gives back the same file. */
  lemma DupOfNewIsSame(spec: MountSpec, path: Path)
    ensures var f := FileFor(spec, path); FileFor(f.spec, f.path) == f
  {
  }

  /** g_daemon_file_equal: two files are equal exactly when their paths are. */
  predicate Equal(a: File, b: File): (r: bool)
    ensures r <==> a.path == b.path
    ensures a.spec == b.spec ==> (r <==> a == b)
  {
    a.path == b.path
  }

  /** Equality does not look at the mount specification: the same path on two mounts compares equal. */
  lemma EqualIgnoresMountSpec(s1: MountSpec, s2: MountSpec, p1: Path, p2: Path)
    ensures Equal(FileFor(s1, p1), FileFor(s2, p2)) <==> CanonicalPath(p1) == CanonicalPath(p2)
  {
  }

  // ---------------------------------------------------------------------
  // Basename

  /** strrchr (s, '/'): the index of the last slash, if there is one. */
  function LastSlash(s: Path): (r: Option<nat>)
    ensures r.None? ==> forall i :: 0 <= i < |s| ==> s[i] != '/'
    ensures r.Some? ==> r.value < |s| && s[r.value] == '/' && forall i :: r.value < i < |s| ==> s[i] != '/'
    decreases |s|
  {
    if s == [] then None
    else if s[|s| - 1] == '/' then Some(|s| - 1)
    else LastSlash(s[..|s| - 1])
  }

  /**
    get_basename: the text after the last slash. When there is no slash, or the
    last slash ends the path (as in "/"), the whole path.
  */
  function Basename(path: Path): (b: Path)
    ensures '/' !in path || path[|path| - 1] == '/' ==> b == path
    ensures '/' in path && path[|path| - 1] != '/' ==>
      && 0 < |b| < |path| && '/' !in b
      && path[|path| - |b|..] == b && path[|path| - |b| - 1] == '/'
  {
    match LastSlash(path)
    case None => path
    case Some(k) => if k + 1 == |path| then path else path[k + 1..]
  }

  /**
    A canonical path with at least one segment is a front ending in a slash
    followed by its last segment; the front is the root and the other segments,
    each followed by a slash.
  */
  lemma CanonicalLastSegment(path: Path) returns (front: Path, last: Path)
    requires Resolve([], Body(path)) != []
    ensures var segs := Resolve([], Body(path));
      && last == segs[|segs| - 1] && ValidSegment(last)
      && front == Root(DoubleRoot(path)) + JoinTrail(segs[..|segs| - 1])
      && CanonicalPath(path) == front + last
  {
    var segs := Resolve([], Body(path));
    var init := segs[..|segs| - 1];
    last := segs[|segs| - 1];
    front := Root(DoubleRoot(path)) + JoinTrail(init);
    assert ValidSegment(last) by {
      CanonicalForm(path);
    }
    assert Join(segs) == JoinTrail(init) + last by {
      assert segs == init + [last];
      JoinSnoc(init, last);
    }
  }

  /** The front of a canonical path ends in a slash. */
  lemma FrontEndsInSlash(root: Path, init: seq<Path>)
    requires root == "/" || root == "//"
    ensures var front := root + JoinTrail(init); front[|front| - 1] == '/'
  {
    if init != [] {
      JoinTrailJoin(init);
    }
  }

  /** After a slash, a nonempty slash-free tail is the basename. */
  lemma BasenameAfterSlash(front: Path, last: Path)
    requires |front| > 0 && front[|front| - 1] == '/'
    requires |last| > 0 && forall i :: 0 <= i < |last| ==> last[i] != '/'
    ensures Basename(front + last) == last
  {
    var r := front + last;
    assert r[|front| - 1] == '/' && r[|r| - 1] == last[|last| - 1];
    assert r[|r| - |last|..] == last;
    SuffixAfterSlash(r, Basename(r), last);
  }

  /** The basename of a canonical path is its last segment, and "/" at the root. */
  lemma BasenameOfCanonical(path: Path)
    ensures var segs := Resolve([], Body(path));
      Basename(CanonicalPath(path)) == if segs == [] then "/" else segs[|segs| - 1]
  {
    var segs := Resolve([], Body(path));
    if segs != [] {
      var front, last := CanonicalLastSegment(path);
      FrontEndsInSlash(Root(DoubleRoot(path)), segs[..|segs| - 1]);
      BasenameAfterSlash(front, last);
    }
  }

  /** Two slash-free suffixes that each follow a slash are the same suffix. */
  lemma SuffixAfterSlash(r: Path, b: Path, c: Path)
    requires 0 < |b| < |r| && '/' !in b && r[|r| - |b|..] == b && r[|r| - |b| - 1] == '/'
    requires 0 < |c| < |r| && (forall i :: 0 <= i < |c| ==> c[i] != '/')
    requires r[|r| - |c|..] == c && r[|r| - |c| - 1] == '/'
    ensures b == c
  {
    forall i | |r| - |b| <= i < |r|
      ensures r[i] != '/'
    {
      assert r[i] == b[i - (|r| - |b|)];
    }
    forall i | |r| - |c| <= i < |r|
      ensures r[i] != '/'
    {
      assert r[i] == c[i - (|r| - |c|)];
    }
  }

  // ---------------------------------------------------------------------
  // Parent

  /** The prefix of `t` left once its trailing slashes are walked back over, keeping the first character. */
  function DropTrailingSlashes(t: Path): (r: Path)
    ensures |r| <= |t| && r == t[..|r|]
    ensures |t| > 0 ==> |r| > 0
    ensures |r| > 1 ==> r[|r| - 1] != '/'
    ensures forall i :: |r| <= i < |t| ==> t[i] == '/'
    decreases |t|
  {
    if |t| > 1 && t[|t| - 1] == '/' then DropTrailingSlashes(t[..|t| - 1]) else t
  }

  /**
    get_parent on paths: none when the last slash is the first character (the
    root, and also every one-segment path such as "/a"); otherwise the prefix
    before the last slash, without the slashes that end it.
  */
  function ParentPath(path: Path): Option<Path> {
    match LastSlash(path)
    case None => None
    case Some(k) => if k == 0 then None else Some(DropTrailingSlashes(path[..k + 1]))
  }

  /** get_parent: the parent keeps the mount specification; its path is not canonicalised again. */
  function Parent(f: File): Option<File> {
    match ParentPath(f.path)
    case None => None
    case Some(p) => Some(File(f.spec, p))
  }

  /** g_daemon_file_get_parent: find the last slash, then walk the pointer back over slashes. */
  method GetParent(f: File) returns (parent: Option<File>)
    ensures parent == Parent(f)
  {
    var path := f.path;
    var last := LastSlash(path);
    if last.None? || last.value == 0 {
      return None;
    }
    var k := last.value;
    var base: nat := k;
    while base > 0 && path[base] == '/'
      invariant base <= k < |path|
      invariant DropTrailingSlashes(path[..base + 1]) == DropTrailingSlashes(path[..k + 1])
      decreases base
    {
      WalkBackOverSlash(path, base);
      base := base - 1;
    }
    WalkBackStops(path, base);
    assert ParentPath(path) == Some(DropTrailingSlashes(path[..k + 1]));
    var len := 1 + base;
    parent := Some(File(f.spec, path[..len]));
  }

  /** One step of the walk: a slash at `base` is dropped. */
  lemma WalkBackOverSlash(path: Path, base: nat)
    requires 0 < base < |path| && path[base] == '/'
    ensures DropTrailingSlashes(path[..base + 1]) == DropTrailingSlashes(path[..base])
  {
    assert path[..base + 1][..base] == path[..base];
  }

  /** The walk stops at the first character or at a non-slash: nothing more is dropped. */
  lemma WalkBackStops(path: Path, base: nat)
    requires base < |path| && (base == 0 || path[base] != '/')
    ensures DropTrailingSlashes(path[..base + 1]) == path[..base + 1]
  {
  }

  /** Walking back from a slash that follows a non-slash stops just before the slash. */
  lemma DropOneSlash(x: Path)
    requires |x| > 1 && x[|x| - 1] != '/'
    ensures DropTrailingSlashes(x + "/") == x
  {
    assert (x + "/")[..|x|] == x;
  }

  /** The slash before a slash-free tail is the last slash. */
  lemma LastSlashBefore(front: Path, last: Path)
    requires |front| > 0 && front[|front| - 1] == '/'
    requires forall i :: 0 <= i < |last| ==> last[i] != '/'
    ensures LastSlash(front + last) == Some(|front| - 1)
  {
    var r := front + last;
    assert r[|front| - 1] == '/';
    forall i | |front| <= i < |r|
      ensures r[i] != '/'
    {
      assert r[i] == last[i - |front|];
    }
  }

  /** The parent of `front + last` when the front is only the root. */
  lemma ParentUnderRoot(root: Path, last: Path)
    requires root == "/" || root == "//"
    requires forall i :: 0 <= i < |last| ==> last[i] != '/'
    ensures ParentPath(root + last) == if root == "//" then Some("/") else None
  {
    LastSlashBefore(root, last);
    if root == "//" {
      assert (root + last)[..2] == "//";
      assert "//"[..1] == "/";
    }
  }

  /** The parent of `x + "/" + last` is `x` when `x` is longer than one character and ends in a non-slash. */
  lemma ParentAfterSlash(x: Path, last: Path)
    requires |x| > 1 && x[|x| - 1] != '/'
    requires forall i :: 0 <= i < |last| ==> last[i] != '/'
    ensures ParentPath(x + "/" + last) == Some(x)
  {
    LastSlashBefore(x + "/", last);
    assert (x + "/" + last)[..|x| + 1] == x + "/";
    DropOneSlash(x);
  }

  /** The root: no parent. */
  lemma ParentOfRoot(path: Path)
    requires Resolve([], Body(path)) == []
    ensures ParentPath(CanonicalPath(path)) == None
  {
    ParentUnderRoot("/", []);
    assert "/" + [] == "/";
  }

  /**
    One segment: no parent under a single root (get_parent does not return
    "/" here), and "/" under a doubled root.
  */
  lemma ParentOfOneSegment(path: Path)
    requires |Resolve([], Body(path))| == 1
    ensures ParentPath(CanonicalPath(path)) == if DoubleRoot(path) then Some("/") else None
  {
    var front, last := CanonicalLastSegment(path);
    assert Resolve([], Body(path))[..0] == [];
    assert front == Root(DoubleRoot(path));
    ParentUnderRoot(front, last);
  }

  /** Two or more segments: the same root followed by all segments but the last. */
  lemma ParentOfSegments(path: Path)
    requires |Resolve([], Body(path))| > 1
    ensures var segs := Resolve([], Body(path));
      ParentPath(CanonicalPath(path)) == Some(Root(DoubleRoot(path)) + Join(segs[..|segs| - 1]))
  {
    var segs := Resolve([], Body(path));
    var front, last := CanonicalLastSegment(path);
    var init := segs[..|segs| - 1];
    CanonicalForm(path);
    assert AllValid(init);
    JoinTrailJoin(init);
    SlashSeparatedJoin(init);
    var x := Root(DoubleRoot(path)) + Join(init);
    assert front == x + "/";
    assert x[|x| - 1] == Join(init)[|Join(init)| - 1];
    ParentAfterSlash(x, last);
  }

  // ---------------------------------------------------------------------
  // Resolving a relative path

  /** The number of slashes `s` starts with. */
  function LeadingSlashes(s: Path): (n: nat)
    ensures n <= |s| && (forall i :: 0 <= i < n ==> s[i] == '/') && (n < |s| ==> s[n] != '/')
    decreases |s|
  {
    if s != [] && s[0] == '/' then 1 + LeadingSlashes(s[1..]) else 0
  }

  /** The number of slashes `s` ends with. */
  function TrailingSlashes(s: Path): (n: nat)
    ensures n <= |s| && (forall i :: |s| - n <= i < |s| ==> s[i] == '/') && (n < |s| ==> s[|s| - n - 1] != '/')
    decreases |s|
  {
    if s != [] && s[|s| - 1] == '/' then 1 + TrailingSlashes(s[..|s| - 1]) else 0
  }

  /** The separators an element starts with. */
  function Lead(s: Path): Path {
    s[..LeadingSlashes(s)]
  }

  /** The separators an element ends with (the whole element when it is only separators). */
  function Trail(s: Path): Path {
    s[|s| - TrailingSlashes(s)..]
  }

  /** An element of g_build_path without its leading and trailing separators. */
  function Core(s: Path): (c: Path)
    ensures c == [] || (c[0] != '/' && c[|c| - 1] != '/')
  {
    var lead, trail := LeadingSlashes(s), TrailingSlashes(s);
    if lead == |s| then [] else s[lead..|s| - trail]
  }

  /** An element is its leading separators, its core and its trailing separators. */
  lemma CoreSplit(s: Path)
    requires LeadingSlashes(s) < |s|
    ensures s == Lead(s) + Core(s) + Trail(s)
  {
    var lead, trail := LeadingSlashes(s), TrailingSlashes(s);
    assert s[lead] != '/';
    assert lead < |s| - trail;
    ThreeSlices(s, lead, |s| - trail);
  }

  lemma ThreeSlices(s: Path, i: nat, j: nat)
    requires i <= j <= |s|
    ensures s == s[..i] + s[i..j] + s[j..]
  {
  }

  /** Two cores joined by one separator; an empty core adds nothing. */
  function JoinCores(a: Path, b: Path): Path {
    if a == [] then b else if b == [] then a else a + "/" + b
  }

  /**
    g_build_path ("/", first, last, NULL) for two elements: empty elements are
    ignored; otherwise the leading separators of the first element, the cores
    of both joined by one separator, and the trailing separators of the last
    element.
  */
  function BuildPath(first: Path, last: Path): Path {
    if last == [] then first
    else if first == [] then last
    else Lead(first) + JoinCores(Core(first), Core(last)) + Trail(last)
  }

  /** A character other than the separator is in a built path only if it is in one of the elements. */
  lemma BuildPathChars(first: Path, last: Path, c: char)
    requires c != '/' && c !in first && c !in last
    ensures c !in BuildPath(first, last)
  {
    if first != [] && last != [] {
      CoreChars(first, c);
      CoreChars(last, c);
      assert c !in Lead(first) && c !in Trail(last);
    }
  }

  lemma CoreChars(s: Path, c: char)
    requires c !in s
    ensures c !in Core(s)
  {
    var lead, trail := LeadingSlashes(s), TrailingSlashes(s);
    if lead < |s| {
      assert Core(s) == s[lead..|s| - trail];
    }
  }

  /** Resolving an element is resolving its core: surrounding separators change nothing. */
  lemma ResolveCore(stack: seq<Path>, s: Path)
    ensures Resolve(stack, s) == Resolve(stack, Core(s))
  {
    var lead := LeadingSlashes(s);
    ResolveSkipsSlashes(stack, s, lead);
    if lead < |s| {
      AfterLead(s);
      TrailIsSlashes(s);
      ResolveTrailingSlashes(stack, Core(s), Trail(s));
    }
  }

  lemma AfterLead(s: Path)
    requires LeadingSlashes(s) < |s|
    ensures s[LeadingSlashes(s)..] == Core(s) + Trail(s)
  {
    CoreSplit(s);
    DropPrefix(Lead(s), Core(s), Trail(s));
  }

  lemma DropPrefix(a: Path, b: Path, c: Path)
    ensures (a + b + c)[|a|..] == b + c
  {
  }

  lemma TrailIsSlashes(s: Path)
    ensures forall i :: 0 <= i < |Trail(s)| ==> Trail(s)[i] == '/'
  {
    var trail := TrailingSlashes(s);
    forall i | 0 <= i < |Trail(s)|
      ensures Trail(s)[i] == '/'
    {
      assert Trail(s)[i] == s[|s| - trail + i];
    }
  }

  /** Resolving joined cores is resolving one after the other. */
  lemma ResolveJoinCores(a: Path, b: Path)
    ensures Resolve([], JoinCores(a, b)) == Resolve(Resolve([], a), b)
  {
    if a != [] && b != [] {
      ResolveAppend([], a, b);
    }
  }

  /** The segments of a built path are those of the first element extended by the last. */
  lemma BuildPathSegments(first: Path, last: Path)
    ensures Resolve([], BuildPath(first, last)) == Resolve(Resolve([], first), last)
  {
    if last != [] && first != [] {
      var a, b := Core(first), Core(last);
      var middle := JoinCores(a, b);
      var lead := Lead(first);
      var r := lead + (middle + Trail(last));
      assert r == BuildPath(first, last);
      assert Resolve([], r) == Resolve([], middle + Trail(last)) by {
        ResolveSkipsSlashes([], r, |lead|);
        assert r[|lead|..] == middle + Trail(last);
      }
      assert Resolve([], middle + Trail(last)) == Resolve([], middle) by {
        ResolveTrailingSlashes([], middle, Trail(last));
      }
      assert Resolve([], middle) == Resolve(Resolve([], a), b) by {
        ResolveJoinCores(a, b);
      }
      assert Resolve([], a) == Resolve([], first) by {
        ResolveCore([], first);
      }
      ResolveCore(Resolve([], a), last);
    }
  }


  /** A built path keeps the root of its first element when that element is absolute and the second is relative. */
  lemma BuildPathRoot(first: Path, last: Path)
    requires first != [] && first[0] == '/' && (last == [] || last[0] != '/')
    ensures var r := BuildPath(first, last);
      r != [] && r[0] == '/' && DoubleRoot(r) == DoubleRoot(first)
  {
    if last != [] {
      var lead := Lead(first);
      var b := Core(last);
      assert LeadingSlashes(last) == 0;
      assert b != [] && b[0] != '/';
      var middle := JoinCores(Core(first), b);
      assert middle != [] && middle[0] != '/';
      var r := BuildPath(first, last);
      assert r == lead + middle + Trail(last);
      RootOfLead(first, lead, middle, Trail(last));
    }
  }

  lemma RootOfLead(first: Path, lead: Path, middle: Path, tail: Path)
    requires first != [] && first[0] == '/' && lead == Lead(first)
    requires middle != [] && middle[0] != '/'
    ensures var r := lead + middle + tail; r[0] == '/' && DoubleRoot(r) == DoubleRoot(first)
  {
    var r := lead + middle + tail;
    var n := LeadingSlashes(first);
    assert n >= 1 && |lead| == n;
    assert r[0] == lead[0];
    if n > 1 {
      assert r[1] == lead[1] == first[1];
    } else {
      assert r[1] == middle[0];
    }
  }

  /**
    g_daemon_file_resolve_relative: an absolute path names a file on the same
    mount directly; a relative one is appended to this file's path first.
  */
  method ResolveRelative(f: File, rel: Path) returns (child: File)
    requires '\0' !in f.path && '\0' !in rel
    ensures rel != [] && rel[0] == '/' ==> child == FileFor(f.spec, rel)
    ensures rel == [] || rel[0] != '/' ==> child == FileFor(f.spec, BuildPath(f.path, rel))
  {
    if rel != [] && rel[0] == '/' {
      child := New(f.spec, rel);
    } else {
      var path := BuildPath(f.path, rel);
      BuildPathChars(f.path, rel, '\0');
      child := New(f.spec, path);
    }
  }

  /**
    The file a relative path resolves to has this file's segments extended by
    the relative path's, with "." and ".." applied, under this file's root.
  */
  lemma ResolveRelativePath(path: Path, rel: Path)
    requires path != [] && path[0] == '/' && (rel == [] || rel[0] != '/')
    ensures var segs := Resolve(Resolve([], Body(path)), rel);
      CanonicalPath(BuildPath(path, rel)) == Root(DoubleRoot(path) && segs != []) + Join(segs)
  {
    var r := BuildPath(path, rel);
    BuildPathRoot(path, rel);
    BuildPathSegments(path, rel);
    SegmentsOfAbsolute(path);
    SegmentsOfAbsolute(r);
  }

  /** The leading slash that Body drops is one Resolve skips anyway. */
  lemma SegmentsOfAbsolute(p: Path)
    requires p != [] && p[0] == '/'
    ensures Resolve([], Body(p)) == Resolve([], p)
  {
    assert p == "/" + Body(p);
    ResolveSlash([], Body(p));
  }

}
