/**
  canonicalize_path (client/gdaemonfile.c) as the in-place rewrite it is: the
  path is copied into a NUL-terminated character buffer behind a leading '/',
  and a cursor walks the buffer, closing gaps with memmove.  The result is
  proved equal to PathSpec.CanonicalPath.

  The loop invariant is stated over the string s = a[..n] (the buffer up to
  its NUL); the lemmas below prove each branch of the loop body on strings.
*/
module Canonicalize {
  import opened PathSpec

  /** a[..n] is a C string: the first NUL of the buffer is at index n. */
  ghost predicate NulTerminated(a: array<char>, n: nat)
    reads a
  {
    n < a.Length && a[n] == '\0' && '\0' !in a[..n]
  }

  /**
    The cursor p has scanned s[..p]: that prefix is the root followed by the
    kept segments (each followed by a slash, except that a final segment that
    ends the string has none), and what is left, s[p..], resolves on top of
    the kept segments to the segments of the whole input.
  */
  ghost predicate Scanned(s: Path, p: nat, stack: seq<Path>, dbl: bool, segs: seq<Path>) {
    && 1 <= p <= |s| && s[0] == '/'
    && AllValid(stack)
    && (dbl && p == 1 ==> stack == [] && 1 < |s| && s[1] == '/')
    && Prefix(s[..p], p == |s|, stack, dbl)
    && Resolve(stack, s[p..]) == segs
  }

  /**
    The scanned prefix t is the root and the kept segments, each followed by
    a slash; once the whole string is scanned the last one may have none.
  */
  ghost predicate Prefix(t: Path, atEnd: bool, stack: seq<Path>, dbl: bool) {
    t == Root(dbl && |t| > 1) + JoinTrail(stack)
    || (atEnd && stack != [] && t == Root(dbl && |t| > 1) + Join(stack))
  }

  /** Scanned, and the cursor stands on the first character of a segment. */
  ghost predicate Cursor(s: Path, p: nat, stack: seq<Path>, dbl: bool, segs: seq<Path>) {
    Scanned(s, p, stack, dbl, segs) && (p < |s| && (p > 1 || !dbl) ==> s[p] != '/')
  }

  /** Removing a run of slashes at the cursor puts the cursor on a segment. */
  lemma DropSlashes(s: Path, p: nat, q: nat, stack: seq<Path>, dbl: bool, segs: seq<Path>)
    requires Scanned(s, p, stack, dbl, segs) && (dbl ==> p > 1)
    requires p <= q <= |s| && (forall i :: p <= i < q ==> s[i] == '/') && (q < |s| ==> s[q] != '/')
    ensures Cursor(s[..p] + s[q..], p, stack, dbl, segs)
  {
    if q == p {
      assert s[..p] + s[q..] == s;
    } else {
      DropSomeSlashes(s, p, q, stack, dbl, segs);
    }
  }

  lemma DropSomeSlashes(s: Path, p: nat, q: nat, stack: seq<Path>, dbl: bool, segs: seq<Path>)
    requires Scanned(s, p, stack, dbl, segs) && (dbl ==> p > 1)
    requires p < q <= |s| && (forall i :: p <= i < q ==> s[i] == '/') && (q < |s| ==> s[q] != '/')
    ensures Cursor(s[..p] + s[q..], p, stack, dbl, segs)
  {
    var s' := s[..p] + s[q..];
    assert s'[..p] == s[..p];
    assert Prefix(s'[..p], p == |s'|, stack, dbl);
    assert s'[p..] == s[q..] == s[p..][q - p..];
    ResolveSkipsSlashes(stack, s[p..], q - p);
    assert s'[0] == s[0];
    assert p < |s'| ==> s'[p] == s[q];
  }

  /** The segment "." at the cursor is removed without changing the segments. */
  lemma DropDotStep(s: Path, p: nat, stack: seq<Path>, dbl: bool, segs: seq<Path>)
    requires Cursor(s, p, stack, dbl, segs) && p < |s|
    requires s[p] == '.' && (p + 1 == |s| || s[p + 1] == '/')
    ensures Scanned(s[..p] + s[p + 1..], p, stack, dbl, segs) && (dbl ==> p > 1)
  {
    var s' := s[..p] + s[p + 1..];
    assert s'[..p] == s[..p];
    assert s'[p..] == s[p + 1..];
    assert s[p..] == "." + s[p + 1..];
    ResolveSegment(stack, ".", s[p + 1..]);
  }

  /**
    Where the segment before the cursor starts: k is the cursor position the
    backward walk of the ".." branch stops at.
  */
  lemma PreviousSegment(s: Path, p: nat, stack: seq<Path>, dbl: bool) returns (k: nat)
    requires 1 <= p < |s| && s[p] == '.' && AllValid(stack) && (dbl ==> p > 1)
    requires s[..p] == Root(dbl && p > 1) + JoinTrail(stack)
    ensures 1 <= k <= p && s[..k] == Root(dbl && k > 1) + JoinTrail(Pop(stack))
    ensures dbl ==> k > 1
    ensures stack == [] ==> k == p && p < 3 && (s[1] == '/' <==> k == 2)
    ensures stack != [] ==> k + 2 <= p && forall j :: k <= j <= p - 2 ==> s[j] != '/'
    ensures stack != [] && k > 1 ==> s[k - 1] == '/'
    ensures stack != [] && k == 1 ==> s[1] != '/'
  {
    if stack == [] {
      k := p;
      if p == 2 {
        assert s[1] == s[..p][1];
      }
    } else {
      var init, last := stack[..|stack| - 1], stack[|stack| - 1];
      assert stack == init + [last];
      assert ValidSegment(last);
      k := LastSegmentStart(s, p, Root(dbl && p > 1), init, last);
    }
  }

  /** The last kept segment of the scanned prefix starts at k, just after a slash. */
  lemma LastSegmentStart(s: Path, p: nat, R: Path, init: seq<Path>, last: Path) returns (k: nat)
    requires p <= |s| && (R == "/" || R == "//") && AllValid(init) && ValidSegment(last)
    requires s[..p] == R + JoinTrail(init + [last])
    ensures k == |R| + |JoinTrail(init)| && k + 2 <= p && s[..k] == R + JoinTrail(init)
    ensures forall j :: k <= j <= p - 2 ==> s[j] != '/'
    ensures k > 1 ==> s[k - 1] == '/'
    ensures k == 1 ==> s[1] != '/'
  {
    JoinTrailSnoc(init, last);
    k := |R| + |JoinTrail(init)|;
    assert s[..p] == (R + JoinTrail(init)) + last + "/";
    assert s[..k] == s[..p][..k];
    forall j | k <= j <= p - 2
      ensures s[j] != '/'
    {
      assert s[j] == s[..p][j] == last[j - k];
    }
    if k > 1 {
      if init != [] {
        JoinTrailJoin(init);
        assert s[k - 1] == s[..p][k - 1];
      } else {
        assert s[k - 1] == s[..p][k - 1] == R[1];
      }
    } else {
      assert s[1] == s[..p][1] == last[0];
    }
  }

  /** The segment ".." at the cursor removes itself and the segment before it. */
  lemma DropDotDotStep(s: Path, p: nat, k: nat, stack: seq<Path>, dbl: bool, segs: seq<Path>)
    requires Cursor(s, p, stack, dbl, segs) && p + 1 < |s|
    requires s[p] == '.' && s[p + 1] == '.' && (p + 2 == |s| || s[p + 2] == '/')
    requires 1 <= k <= p && s[..k] == Root(dbl && k > 1) + JoinTrail(Pop(stack)) && (dbl ==> k > 1)
    ensures Scanned(s[..k] + s[p + 2..], k, Pop(stack), dbl, segs)
  {
    var s' := s[..k] + s[p + 2..];
    assert s'[..k] == s[..k];
    assert s'[k..] == s[p + 2..];
    assert s[p..] == ".." + s[p + 2..];
    ResolveSegment(stack, "..", s[p + 2..]);
    ResolveValid(stack, s[p..]);
  }

  /** Any other segment is kept, with the one slash that follows it. */
  lemma KeepSegmentStep(s: Path, p: nat, e: nat, stack: seq<Path>, dbl: bool, segs: seq<Path>)
    requires Cursor(s, p, stack, dbl, segs) && p < |s|
    requires !(s[p] == '.' && (p + 1 == |s| || s[p + 1] == '/'))
    requires !(s[p] == '.' && p + 1 < |s| && s[p + 1] == '.' && (p + 2 == |s| || s[p + 2] == '/'))
    requires p <= e <= |s| && (forall i :: p <= i < e ==> s[i] != '/') && (e < |s| ==> s[e] == '/')
    ensures Scanned(s, if e < |s| then e + 1 else e, Kept(stack, s[p..e]), dbl, segs)
  {
    var seg := s[p..e];
    if seg == [] {
      KeepDoubleRoot(s, segs);
    } else {
      var q := if e < |s| then e + 1 else e;
      var R := Root(dbl && p > 1);
      assert s[..p] == R + JoinTrail(stack);
      assert R == Root(dbl && q > 1) by {
        assert p == 1 ==> !dbl;
      }
      assert ValidSegment(seg) by {
        SegmentIsValid(s, p, e);
      }
      assert AllValid(stack + [seg]);
      assert Resolve(stack + [seg], s[q..]) == segs by {
        KeepResolve(s, p, e, stack, seg);
      }
      if e == |s| {
        KeepLastSegment(s, p, R, stack, seg);
      } else {
        KeepSegmentAndSlash(s, p, e, R, stack, seg);
      }
    }
  }

  /** A doubled root keeps its second slash: the cursor moves past it. */
  lemma KeepDoubleRoot(s: Path, segs: seq<Path>)
    requires Scanned(s, 1, [], true, segs)
    ensures Scanned(s, 2, [], true, segs)
  {
    assert s[1..] == "/" + s[2..];
    assert s[..2] == "//";
  }

  /** A nonempty run of non-slashes that is neither "." nor ".." is a valid segment. */
  lemma SegmentIsValid(s: Path, p: nat, e: nat)
    requires p < e <= |s| && (forall i :: p <= i < e ==> s[i] != '/')
    requires !(s[p] == '.' && (p + 1 == |s| || s[p + 1] == '/'))
    requires !(s[p] == '.' && p + 1 < |s| && s[p + 1] == '.' && (p + 2 == |s| || s[p + 2] == '/'))
    requires e < |s| ==> s[e] == '/'
    ensures ValidSegment(s[p..e])
  {
    var seg := s[p..e];
    if |seg| == 1 {
      assert seg[0] == s[p];
    } else if |seg| == 2 {
      assert seg[0] == s[p] && seg[1] == s[p + 1];
    }
  }

  /** Resolving from the cursor is resolving from after the segment and its slash. */
  lemma KeepResolve(s: Path, p: nat, e: nat, stack: seq<Path>, seg: Path)
    requires p < e <= |s| && seg == s[p..e] && ValidSegment(seg) && (e < |s| ==> s[e] == '/')
    ensures Resolve(stack, s[p..]) == Resolve(stack + [seg], if e < |s| then s[e + 1..] else [])
  {
    assert s[p..] == seg + s[e..];
    ResolveSegment(stack, seg, s[e..]);
    if e < |s| {
      assert s[e..] == "/" + s[e + 1..];
      ResolveSlash(stack + [seg], s[e + 1..]);
    }
  }

  /** A kept segment that ends the string completes the scanned string. */
  lemma KeepLastSegment(s: Path, p: nat, R: Path, stack: seq<Path>, seg: Path)
    requires p < |s| && seg == s[p..] && s[..p] == R + JoinTrail(stack)
    ensures s[..|s|] == R + Join(stack + [seg])
  {
    JoinSnoc(stack, seg);
    calc {
      s[..|s|];
      s[..p] + s[p..];
      R + JoinTrail(stack) + seg;
    }
  }

  /** A kept segment and its slash grow the scanned prefix. */
  lemma KeepSegmentAndSlash(s: Path, p: nat, e: nat, R: Path, stack: seq<Path>, seg: Path)
    requires p < e < |s| && seg == s[p..e] && s[e] == '/' && s[..p] == R + JoinTrail(stack)
    ensures s[..e + 1] == R + JoinTrail(stack + [seg])
  {
    JoinTrailSnoc(stack, seg);
    calc {
      s[..e + 1];
      s[..p] + s[p..e] + [s[e]];
      R + JoinTrail(stack) + seg + "/";
    }
  }

  /** The stack after a segment has been scanned: an empty segment is a doubled root's slash. */
  ghost function Kept(stack: seq<Path>, seg: Path): seq<Path> {
    if seg == [] then stack else stack + [seg]
  }

  /** Before the loop: the cursor stands after the first slash of the buffer. */
  lemma Start(path: Path, s: Path)
    requires s == if path == [] || path[0] != '/' then "/" + path else path
    ensures Cursor(s, 1, [], DoubleRoot(path), Resolve([], Body(path)))
  {
    assert s == "/" + Body(path);
    assert s[1..] == Body(path);
    assert s[..1] == "/";
  }

  /** "Remove trailing slashes": one slash after the last segment is dropped, never the root. */
  ghost function TrimTrailingSlash(s: Path): Path {
    if |s| > 1 && s[|s| - 1] == '/' then s[..|s| - 1] else s
  }

  /** After the loop, dropping the trailing slash leaves the canonical form. */
  lemma Finish(path: Path, s: Path, stack: seq<Path>)
    requires Scanned(s, |s|, stack, DoubleRoot(path), Resolve([], Body(path)))
    ensures TrimTrailingSlash(s) == CanonicalPath(path)
  {
    assert s[|s|..] == [];
    assert s[..|s|] == s;
    if stack == [] {
      FinishAtRoot(s, DoubleRoot(path));
    } else {
      FinishSegments(s, stack, DoubleRoot(path));
    }
  }

  lemma FinishAtRoot(s: Path, dbl: bool)
    requires 1 <= |s| && (dbl && |s| == 1 ==> false)
    requires Prefix(s, true, [], dbl)
    ensures TrimTrailingSlash(s) == Root(false)
  {
    assert s == Root(dbl && |s| > 1);
  }

  lemma FinishSegments(s: Path, stack: seq<Path>, dbl: bool)
    requires stack != [] && AllValid(stack) && Prefix(s, true, stack, dbl)
    ensures TrimTrailingSlash(s) == Root(dbl) + Join(stack)
  {
    SlashSeparatedJoin(stack);
    JoinTrailJoin(stack);
    var J := Join(stack);
    if s == Root(dbl && |s| > 1) + J + "/" {
      assert s[..|s| - 1] == Root(dbl && |s| > 1) + J;
    } else {
      assert s[|s| - 1] == J[|J| - 1];
    }
  }

  /** memmove (p, q, strlen (q) + 1): the characters a[p..q] are removed. */
  method CloseGap(a: array<char>, n: nat, p: nat, q: nat, ghost s: Path) returns (m: nat)
    requires p <= q <= n && NulTerminated(a, n) && s == a[..n]
    modifies a
    ensures m == n - (q - p) && NulTerminated(a, m)
    ensures a[..m] == s[..p] + s[q..]
  {
    ghost var before := a[..];
    var i := 0;
    while i <= n - q
      invariant 0 <= i <= n - q + 1
      invariant forall j :: 0 <= j < p ==> a[j] == before[j]
      invariant forall j :: p <= j < p + i ==> a[j] == before[j - p + q]
      invariant forall j :: p + i <= j < a.Length ==> a[j] == before[j]
    {
      a[p + i] := a[q + i];
      i := i + 1;
    }
    m := n - (q - p);
    GapClosed(before, a[..], n, p, q);
  }

  /** What the copy loop of CloseGap leaves behind, on the buffer's contents. */
  lemma GapClosed(before: seq<char>, after: seq<char>, n: nat, p: nat, q: nat)
    requires p <= q <= n < |before| == |after| && before[n] == '\0' && '\0' !in before[..n]
    requires forall j :: 0 <= j < p ==> after[j] == before[j]
    requires forall j :: p <= j <= p + (n - q) ==> after[j] == before[j - p + q]
    ensures after[n - (q - p)] == '\0' && after[..n - (q - p)] == before[..p] + before[q..n]
    ensures before[..n][..p] + before[..n][q..] == before[..p] + before[q..n]
    ensures '\0' !in after[..n - (q - p)]
  {
    var m := n - (q - p);
    assert after[..m] == before[..p] + before[q..n];
    assert before[..n] == before[..p] + before[p..q] + before[q..n];
  }

  /** "Remove additional separators": the run of slashes at the cursor is removed. */
  method DropSeparators(a: array<char>, n: nat, p: nat, ghost s: Path, ghost stack: seq<Path>, ghost dbl: bool, ghost segs: seq<Path>)
    returns (m: nat, ghost s': Path)
    requires NulTerminated(a, n) && a[..n] == s && Scanned(s, p, stack, dbl, segs) && (dbl ==> p > 1)
    modifies a
    ensures NulTerminated(a, m) && a[..m] == s' && Cursor(s', p, stack, dbl, segs) && m <= n
  {
    var q := p;
    while a[q] != '\0' && a[q] == '/'
      invariant p <= q <= n
      invariant forall i :: p <= i < q ==> s[i] == '/'
      decreases n - q
    {
      assert a[q] == s[q] || q == n;
      q := q + 1;
    }
    assert q < n ==> a[q] == s[q];
    DropSlashes(s, p, q, stack, dbl, segs);
    s' := s[..p] + s[q..];
    m := n;
    if p != q {
      m := CloseGap(a, n, p, q, s);
    } else {
      assert s' == s;
    }
  }

  /** The segment at the cursor is ".": remove the dot. */
  method DropDot(a: array<char>, n: nat, p: nat, ghost s: Path, ghost stack: seq<Path>, ghost dbl: bool, ghost segs: seq<Path>)
    returns (m: nat, ghost s': Path)
    requires NulTerminated(a, n) && a[..n] == s && Cursor(s, p, stack, dbl, segs) && p < n
    requires a[p] == '.' && (a[p + 1] == '\0' || a[p + 1] == '/')
    modifies a
    ensures NulTerminated(a, m) && a[..m] == s' && Scanned(s', p, stack, dbl, segs) && (dbl ==> p > 1) && m < n
  {
    assert a[p] == s[p];
    assert p + 1 < n ==> a[p + 1] == s[p + 1];
    DropDotStep(s, p, stack, dbl, segs);
    s' := s[..p] + s[p + 1..];
    m := CloseGap(a, n, p, p + 1, s);
  }

  /** The segment at the cursor is "..": remove it together with the segment before it. */
  method DropDotDot(a: array<char>, n: nat, p: nat, ghost s: Path, ghost stack: seq<Path>, ghost dbl: bool, ghost segs: seq<Path>)
    returns (p': nat, m: nat, ghost s': Path)
    requires NulTerminated(a, n) && a[..n] == s && Cursor(s, p, stack, dbl, segs) && p < n
    requires a[p] == '.' && a[p + 1] == '.' && (a[p + 2] == '\0' || a[p + 2] == '/')
    modifies a
    ensures NulTerminated(a, m) && a[..m] == s' && Scanned(s', p', Pop(stack), dbl, segs)
    ensures (dbl ==> p' > 1) && m - p' < n - p
  {
    assert a[p] == s[p] && a[p + 1] == s[p + 1];
    assert p + 2 < n ==> a[p + 2] == s[p + 2];
    ghost var k := PreviousSegment(s, p, stack, dbl);
    DropDotDotStep(s, p, k, stack, dbl, segs);
    p', m := RemoveDotDot(a, n, p, s, k, stack == []);
    s' := s[..k] + s[p + 2..];
  }

  /** The memmove of the ".." branch: from the start of the previous segment, drop up to the end of "..". */
  method RemoveDotDot(a: array<char>, n: nat, p: nat, ghost s: Path, ghost k: nat, ghost atRoot: bool)
    returns (p': nat, m: nat)
    requires NulTerminated(a, n) && s == a[..n] && 1 <= k <= p && p + 2 <= n
    requires atRoot ==> k == p && p < 3 && (s[1] == '/' <==> k == 2)
    requires !atRoot ==> k + 2 <= p && forall j :: k <= j <= p - 2 ==> s[j] != '/'
    requires !atRoot && k > 1 ==> s[k - 1] == '/'
    requires !atRoot && k == 1 ==> s[1] != '/'
    modifies a
    ensures p' == k && m == n - (p + 2 - k) && NulTerminated(a, m) && a[..m] == s[..k] + s[p + 2..]
  {
    var q := p + 2;
    p' := SkipPreviousSeparator(a, n, p, s, k, atRoot);
    m := CloseGap(a, n, p', q, s);
  }

  /**
    "Skip previous separator": walk back from two characters before the
    cursor to the start of the previous segment, but not before the root.
  */
  method SkipPreviousSeparator(a: array<char>, n: nat, p: nat, ghost s: Path, ghost k: nat, ghost atRoot: bool)
    returns (p': nat)
    requires 1 <= k <= p < n < a.Length && s == a[..n]
    requires atRoot ==> k == p && p < 3 && (s[1] == '/' <==> k == 2)
    requires !atRoot ==> k + 2 <= p && forall j :: k <= j <= p - 2 ==> s[j] != '/'
    requires !atRoot && k > 1 ==> s[k - 1] == '/'
    requires !atRoot && k == 1 ==> s[1] != '/'
    ensures p' == k
  {
    p' := if p < 3 then 1 else p - 2;
    while p' > 1 && a[p'] != '/'
      invariant 1 <= p' && k - 1 <= p'
      invariant !atRoot ==> p' <= p - 2
      invariant atRoot ==> p' == 1
    {
      assert a[p'] == s[p'];
      p' := p' - 1;
    }
    assert a[p'] == s[p'];
    if a[p'] == '/' {
      p' := p' + 1;
    }
  }

  /** "Skip until next separator": the end of the segment at the cursor. */
  method SkipToSeparator(a: array<char>, n: nat, p: nat, ghost s: Path) returns (e: nat)
    requires NulTerminated(a, n) && p <= n && s == a[..n]
    ensures p <= e <= n && (forall i :: p <= i < e ==> s[i] != '/') && (e < n ==> s[e] == '/')
    ensures a[e] == '\0' <==> e == n
  {
    e := p;
    while a[e] != '\0' && a[e] != '/'
      invariant p <= e <= n
      invariant forall i :: p <= i < e ==> s[i] != '/'
      decreases n - e
    {
      assert a[e] == s[e] || e == n;
      e := e + 1;
    }
    assert e < n ==> a[e] == s[e];
  }

  /** Any other segment is kept: move the cursor past it and one separator. */
  method KeepSegment(a: array<char>, n: nat, p: nat, ghost s: Path, ghost stack: seq<Path>, ghost dbl: bool, ghost segs: seq<Path>)
    returns (p': nat, ghost stack': seq<Path>)
    requires NulTerminated(a, n) && a[..n] == s && Cursor(s, p, stack, dbl, segs) && p < n
    requires !(a[p] == '.' && (a[p + 1] == '\0' || a[p + 1] == '/'))
    requires !(a[p] == '.' && a[p + 1] == '.' && (a[p + 2] == '\0' || a[p + 2] == '/'))
    ensures Scanned(s, p', stack', dbl, segs) && p < p' <= n
  {
    assert a[p] == s[p];
    assert p + 1 < n ==> a[p + 1] == s[p + 1];
    assert p + 2 < n ==> a[p + 2] == s[p + 2];
    var e := SkipToSeparator(a, n, p, s);
    KeepSegmentStep(s, p, e, stack, dbl, segs);
    stack' := Kept(stack, s[p..e]);
    p' := e;
    // Keep one separator
    if a[e] != '\0' {
      p' := e + 1;
    }
  }

  /** "Remove trailing slashes": the cursor has reached the NUL at n. */
  method RemoveTrailingSlash(a: array<char>, n: nat, ghost s: Path) returns (m: nat)
    requires NulTerminated(a, n) && a[..n] == s && 1 <= n
    modifies a
    ensures NulTerminated(a, m) && a[..m] == TrimTrailingSlash(s)
  {
    m := n;
    if n > 1 && a[n - 1] == '/' {
      assert a[n - 1] == s[n - 1];
      a[n - 1] := '\0';
      m := n - 1;
      assert a[..m] == s[..m];
    } else {
      assert n > 1 ==> a[n - 1] == s[n - 1];
    }
  }

  /** What the segment at the cursor is, by the tests canonicalize_path makes on its characters. */
  datatype SegmentKind = Dot | DotDot | Name

  method SegmentAt(a: array<char>, n: nat, p: nat) returns (kind: SegmentKind)
    requires NulTerminated(a, n) && p < n
    ensures kind == Dot <==> a[p] == '.' && (a[p + 1] == '\0' || a[p + 1] == '/')
    ensures kind == DotDot <==> a[p] == '.' && a[p + 1] == '.' && (a[p + 2] == '\0' || a[p + 2] == '/')
  {
    if a[p] == '.' && (a[p + 1] == '\0' || a[p + 1] == '/') {
      kind := Dot;
    } else if a[p] == '.' && a[p + 1] == '.' && (a[p + 2] == '\0' || a[p + 2] == '/') {
      kind := DotDot;
    } else {
      kind := Name;
    }
  }

  /** canonicalize_path: the canonical form of `path`, computed in place. */
  method CanonicalizePath(path: Path) returns (canon: Path)
    requires '\0' !in path
    ensures canon == CanonicalPath(path)
  {
    // g_strconcat ("/", path, NULL) or g_strdup (path)
    var s: Path := if path == [] || path[0] != '/' then "/" + path else path;
    var a := new char[|s| + 1](i => if 0 <= i < |s| then s[i] else '\0');
    var n: nat := |s|;
    ghost var buf := s;
    assert a[..n] == buf;
    ghost var dbl := DoubleRoot(path);
    ghost var segs := Resolve([], Body(path));
    Start(path, s);

    // Skip initial slash
    var p: nat := 1;
    ghost var stack: seq<Path> := [];
    while a[p] != '\0'
      invariant NulTerminated(a, n) && a[..n] == buf && Cursor(buf, p, stack, dbl, segs)
      decreases n - p
    {
      var kind := SegmentAt(a, n, p);
      if kind == Dot {
        n, buf := DropDot(a, n, p, buf, stack, dbl, segs);
      } else if kind == DotDot {
        p, n, buf := DropDotDot(a, n, p, buf, stack, dbl, segs);
        stack := Pop(stack);
      } else {
        p, stack := KeepSegment(a, n, p, buf, stack, dbl, segs);
      }
      // Remove additional separators
      n, buf := DropSeparators(a, n, p, buf, stack, dbl, segs);
    }
    assert p == n;
    Finish(path, buf, stack);
    n := RemoveTrailingSlash(a, n, buf);
    canon := a[..n];
  }
}
