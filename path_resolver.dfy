/**
 * The path resolver of the command interpreter (`getFullPath`): a current directory and a target
 * token give an absolute path. A relative target is applied segment by segment to the current
 * directory's segments (`..` pops, `.` is skipped, anything else is pushed); an absolute target
 * only loses its empty segments.
 */
module PathResolver {
  import opened JsStrings

  /** `targetPath.replace(/\/$/, '')`: one trailing slash, if there is one, is dropped. */
  function StripTrailingSlash(t: string): (r: string)
    ensures if |t| > 0 && t[|t| - 1] == '/' then r + "/" == t else r == t
  {
    if |t| > 0 && t[|t| - 1] == '/' then t[..|t| - 1] else t
  }

  /** `s.split('/').filter(Boolean)`. */
  function Segments(s: string): seq<string> {
    NonEmpty(Split(s, '/'))
  }

  /** Non-empty segments without a slash: exactly what a path can be rebuilt from. */
  ghost predicate CleanSegments(segs: seq<string>) {
    forall k :: 0 <= k < |segs| ==> segs[k] != [] && '/' !in segs[k]
  }

  /** `'/' + segs.join('/')`; the source's `|| '/'` never applies, as this string is never empty. */
  function PathOf(segs: seq<string>): (p: string)
    ensures |p| >= 1 && p[0] == '/'
  {
    "/" + Join(segs, '/')
  }

  /** The shape every result has: a leading slash, no `//`, and no trailing slash unless it is `/`. */
  ghost predicate WellFormedPath(p: string) {
    && |p| >= 1 && p[0] == '/'
    && (forall i :: 0 <= i < |p| - 1 ==> !(p[i] == '/' && p[i + 1] == '/'))
    && (p == "/" || p[|p| - 1] != '/')
  }

  /** One iteration of the loop over the target's segments. */
  function ApplySegment(acc: seq<string>, segment: string): seq<string> {
    if segment == ".." then (if acc == [] then [] else acc[..|acc| - 1])
    else if segment != "." && segment != "" then acc + [segment]
    else acc
  }

  /** The whole loop: the target's segments applied in order to `acc`. */
  function Resolve(acc: seq<string>, segs: seq<string>): seq<string>
    decreases |segs|
  {
    if segs == [] then acc else Resolve(ApplySegment(acc, segs[0]), segs[1..])
  }

  /** What `getFullPath(currentDirectory, targetPath)` returns: always an absolute path. */
  function FullPath(currentDirectory: string, targetPath: string): (p: string)
    ensures |p| >= 1 && p[0] == '/'
  {
    var t := StripTrailingSlash(targetPath);
    if StartsWith(t, "/") then PathOf(Segments(t))
    else PathOf(Resolve(Segments(currentDirectory), Segments(t)))
  }

  /** `getFullPath`, with its `for ... of` loop pushing and popping `newPathSegments`. */
  method GetFullPath(currentDirectory: string, targetPath: string) returns (path: string)
    ensures path == FullPath(currentDirectory, targetPath)
  {
    var t := StripTrailingSlash(targetPath);
    if StartsWith(t, "/") {
      var segments := Segments(t);
      path := "/" + Join(segments, '/');
      return;
    }
    var currentSegments := Segments(currentDirectory);
    var targetSegments := Segments(t);
    var newPathSegments := currentSegments;
    for i := 0 to |targetSegments|
      invariant Resolve(newPathSegments, targetSegments[i..]) == Resolve(currentSegments, targetSegments)
    {
      var segment := targetSegments[i];
      assert targetSegments[i..][1..] == targetSegments[i + 1..];
      if segment == ".." {
        if |newPathSegments| > 0 {
          newPathSegments := newPathSegments[..|newPathSegments| - 1];
        }
      } else if segment != "." && segment != "" {
        newPathSegments := newPathSegments + [segment];
      }
    }
    path := "/" + Join(newPathSegments, '/');
  }

  // ----- Segments of strings and of paths -----

  lemma SegmentsClean(s: string)
    ensures CleanSegments(Segments(s))
  {
    var pieces := Split(s, '/');
    forall k | 0 <= k < |Segments(s)| ensures '/' !in Segments(s)[k] {
      var j :| 0 <= j < |pieces| && pieces[j] == Segments(s)[k];
    }
  }

  lemma {:induction false} ResolveClean(acc: seq<string>, segs: seq<string>)
    requires CleanSegments(acc) && CleanSegments(segs)
    ensures CleanSegments(Resolve(acc, segs))
    decreases |segs|
  {
    if segs != [] {
      var next := ApplySegment(acc, segs[0]);
      assert CleanSegments(next);
      ResolveClean(next, segs[1..]);
    }
  }

  /** Rebuilding a path from clean segments gives a well-formed path. */
  lemma {:induction false} PathOfWellFormed(segs: seq<string>)
    requires CleanSegments(segs)
    ensures WellFormedPath(PathOf(segs))
    decreases |segs|
  {
    if |segs| >= 2 {
      PathOfWellFormed(segs[1..]);
      var tail := PathOf(segs[1..]);
      var p := PathOf(segs);
      assert p == "/" + segs[0] + tail;
      var n := |segs[0]|;
      forall i | 0 <= i < |p| - 1 ensures !(p[i] == '/' && p[i + 1] == '/') {
        if i < n {
          assert p[i + 1] == segs[0][i];
        } else if i == n {
          assert p[i] == segs[0][n - 1];
        } else {
          assert p[i] == tail[i - 1 - n] && p[i + 1] == tail[i - n];
        }
      }
    } else if |segs| == 1 {
      var p := PathOf(segs);
      assert p == "/" + segs[0];
      forall i | 1 <= i < |p| ensures p[i] != '/' {
        assert p[i] == segs[0][i - 1];
      }
    }
  }

  /** Splitting a rebuilt path gives back its segments. */
  lemma SegmentsOfPathOf(segs: seq<string>)
    requires CleanSegments(segs)
    ensures Segments(PathOf(segs)) == segs
  {
    var j := Join(segs, '/');
    if segs == [] {
      assert PathOf(segs) == [] + "/" + [];
      SplitAround([], '/', []);
    } else {
      JoinSplit(segs, '/');
      assert PathOf(segs) == [] + ['/'] + j;
      SplitAround([], '/', j);
      NonEmptyAppend([[]], segs);
      NonEmptyIdentity(segs);
    }
  }

  /** Every piece after the first is non-empty in the split of a string with no `//` and no trailing `/`. */
  lemma {:induction false} SplitInnerPiecesNonEmpty(q: string)
    requires forall i :: 0 <= i < |q| - 1 ==> !(q[i] == '/' && q[i + 1] == '/')
    requires q == [] || q[|q| - 1] != '/'
    ensures forall k :: 1 <= k < |Split(q, '/')| ==> Split(q, '/')[k] != []
    decreases |q|
  {
    if q != [] {
      var q' := q[1..];
      forall i | 0 <= i < |q'| - 1 ensures !(q'[i] == '/' && q'[i + 1] == '/') {
        assert q'[i] == q[i + 1] && q'[i + 1] == q[i + 2];
      }
      SplitInnerPiecesNonEmpty(q');
      if q[0] == '/' {
        assert q' != [] && q'[0] != '/';
        assert Split(q', '/')[0] == [q'[0]] + Split(q'[1..], '/')[0];
      }
    }
  }

  /** A well-formed path is canonical: rebuilding it from its segments gives it back. */
  lemma WellFormedIsCanonical(p: string)
    requires WellFormedPath(p)
    ensures PathOf(Segments(p)) == p
  {
    var q := p[1..];
    assert p == [] + ['/'] + q;
    SplitAround([], '/', q);
    assert Split(p, '/') == [[]] + Split(q, '/');
    NonEmptyAppend([[]], Split(q, '/'));
    assert Segments(p) == NonEmpty(Split(q, '/'));
    if q == [] {
      assert Split(q, '/') == [[]];
    } else {
      assert q[0] != '/' && q[|q| - 1] != '/';
      forall i | 0 <= i < |q| - 1 ensures !(q[i] == '/' && q[i + 1] == '/') {
        assert q[i] == p[i + 1] && q[i + 1] == p[i + 2];
      }
      SplitInnerPiecesNonEmpty(q);
      assert Split(q, '/')[0] == [q[0]] + Split(q[1..], '/')[0];
      NonEmptyIdentity(Split(q, '/'));
      SplitJoin(q, '/');
    }
  }

  /** Dropping one trailing slash never changes the non-empty segments. */
  lemma SegmentsStripTrailingSlash(t: string)
    ensures Segments(StripTrailingSlash(t)) == Segments(t)
  {
    var s := StripTrailingSlash(t);
    if s != t {
      assert t == s + ['/'] + [];
      SplitAround(s, '/', []);
      NonEmptyAppend(Split(s, '/'), [[]]);
    }
  }

  // ----- Properties of getFullPath -----

  /** Every resolved path is well formed: a leading `/`, no `//`, no trailing `/` unless it is `/`. */
  lemma FullPathWellFormed(currentDirectory: string, targetPath: string)
    ensures WellFormedPath(FullPath(currentDirectory, targetPath))
  {
    var t := StripTrailingSlash(targetPath);
    SegmentsClean(t);
    SegmentsClean(currentDirectory);
    if StartsWith(t, "/") {
      PathOfWellFormed(Segments(t));
    } else {
      ResolveClean(Segments(currentDirectory), Segments(t));
      PathOfWellFormed(Resolve(Segments(currentDirectory), Segments(t)));
    }
  }

  /** A plain name seen from a directory is that directory's child: one more segment. */
  lemma ChildPath(segs: seq<string>, name: string)
    requires CleanSegments(segs)
    requires name != [] && '/' !in name && name != "." && name != ".."
    ensures FullPath(PathOf(segs), name) == PathOf(segs + [name])
  {
    assert name[|name| - 1] != '/' && name[0] != '/';
    assert StripTrailingSlash(name) == name;
    SplitNoSep(name, '/');
    assert NonEmpty([name]) == [name] + NonEmpty([]);
    SegmentsOfPathOf(segs);
    assert Resolve(segs, [name]) == Resolve(segs + [name], []);
  }

  /** Resolving `.` against a resolved path gives that path back. */
  lemma FullPathIdempotent(currentDirectory: string, targetPath: string)
    ensures FullPath(FullPath(currentDirectory, targetPath), ".") == FullPath(currentDirectory, targetPath)
  {
    var p := FullPath(currentDirectory, targetPath);
    FullPathWellFormed(currentDirectory, targetPath);
    WellFormedIsCanonical(p);
    SplitNoSep(".", '/');
    assert Segments(".") == ["."];
    assert Resolve(Segments(p), ["."]) == Segments(p);
  }

  /** Going up from the root stays at the root. */
  lemma ParentOfRoot()
    ensures FullPath("/", "..") == "/"
  {
    SegmentsOfPathOf([]);
    assert PathOf([]) == "/";
    SplitNoSep("..", '/');
    assert Segments("..") == [".."];
  }

  /** `..` drops the last segment of the current directory, and does nothing at the root. */
  lemma DotDotPopsLast(currentDirectory: string)
    ensures var segs := Segments(currentDirectory);
      FullPath(currentDirectory, "..") == PathOf(if segs == [] then [] else segs[..|segs| - 1])
  {
    SplitNoSep("..", '/');
    assert Segments("..") == [".."];
  }

  /** A target of exactly `/` loses its slash and becomes the current directory. */
  lemma RootTargetIsCurrent(currentDirectory: string)
    requires WellFormedPath(currentDirectory)
    ensures FullPath(currentDirectory, "/") == currentDirectory
  {
    assert StripTrailingSlash("/") == [];
    assert Split([], '/') == [[]];
    assert Segments([]) == [];
    WellFormedIsCanonical(currentDirectory);
  }

  /**
   * An absolute target (other than `/` itself) keeps its segments verbatim, `.` and `..`
   * included; only empty segments are dropped.
   */
  lemma AbsoluteTargetKeepsSegments(currentDirectory: string, targetPath: string)
    requires StartsWith(targetPath, "/") && targetPath != "/"
    ensures FullPath(currentDirectory, targetPath) == PathOf(Segments(targetPath))
    ensures Segments(FullPath(currentDirectory, targetPath)) == Segments(targetPath)
  {
    var t := StripTrailingSlash(targetPath);
    assert |targetPath| >= 2;
    assert t[0] == '/';
    SegmentsStripTrailingSlash(targetPath);
    SegmentsClean(targetPath);
    SegmentsOfPathOf(Segments(targetPath));
  }

  lemma {:induction false} ResolveAppend(acc: seq<string>, a: seq<string>, b: seq<string>)
    ensures Resolve(acc, a + b) == Resolve(Resolve(acc, a), b)
    decreases |a|
  {
    if a == [] {
      assert a + b == b;
    } else {
      assert (a + b)[0] == a[0] && (a + b)[1..] == a[1..] + b;
      ResolveAppend(ApplySegment(acc, a[0]), a[1..], b);
    }
  }

  /**
   * Resolution composes: changing into relative `a` and then into relative `b` lands where
   * changing into `a/b` does.
   */
  lemma RelativeCompose(currentDirectory: string, a: string, b: string)
    requires a != [] && a[0] != '/'
    requires b == [] || b[0] != '/'
    ensures FullPath(FullPath(currentDirectory, a), b) == FullPath(currentDirectory, a + "/" + b)
  {
    var ta := StripTrailingSlash(a);
    var tb := StripTrailingSlash(b);
    var ab := a + "/" + b;
    var tab := StripTrailingSlash(ab);
    var cur := Segments(currentDirectory);
    SegmentsStripTrailingSlash(a);
    SegmentsStripTrailingSlash(b);
    SegmentsStripTrailingSlash(ab);
    assert !StartsWith(ta, "/") by { if ta != [] { assert ta[0] == a[0]; } }
    assert !StartsWith(tb, "/") by { if tb != [] { assert tb[0] == b[0]; } }
    assert !StartsWith(tab, "/") by { assert tab[0] == a[0]; }
    SegmentsClean(a);
    SegmentsClean(currentDirectory);
    var mid := Resolve(cur, Segments(a));
    ResolveClean(cur, Segments(a));
    SegmentsOfPathOf(mid);
    SplitAround(a, '/', b);
    NonEmptyAppend(Split(a, '/'), Split(b, '/'));
    ResolveAppend(cur, Segments(a), Segments(b));
  }
}
