/** Node's POSIX `path` functions that the build uses, worked out on the `/`-separated
    segments of a path. A resolved path is the list of names after its leading `/`; `cwd` is
    the process's working directory in that form. */
module NodePath {

  import opened Wrappers
  import opened JsString

  /** A segment that names a directory entry. */
  predicate IsName(seg: string)
  {
    seg != "" && seg != "." && seg != ".." && '/' !in seg
  }

  predicate Clean(segs: seq<string>)
  {
    forall i :: 0 <= i < |segs| ==> IsName(segs[i])
  }

  /** No segment holds a `/`, as for the pieces of a split on `/`. */
  predicate Slashless(segs: seq<string>)
  {
    forall i :: 0 <= i < |segs| ==> '/' !in segs[i]
  }

  predicate IsAbsolute(p: string)
  {
    |p| > 0 && p[0] == '/'
  }

  /** How one segment changes the segments kept so far: empty and `.` segments vanish, `..`
      drops the last kept name, or is kept itself when nothing can be dropped and the path
      may climb above its start (`aboveRoot`, true for relative paths). */
  function Step(acc: seq<string>, seg: string, aboveRoot: bool): seq<string>
  {
    if seg == "" || seg == "." then acc
    else if seg == ".." then
      if |acc| > 0 && acc[|acc| - 1] != ".." then acc[..|acc| - 1]
      else if aboveRoot then acc + [".."]
      else acc
    else acc + [seg]
  }

  /** The segments `normalizeString` keeps after processing `segs` from left to right. */
  function Norm(acc: seq<string>, segs: seq<string>, aboveRoot: bool): seq<string>
  {
    if |segs| == 0 then acc
    else Step(Norm(acc, segs[..|segs| - 1], aboveRoot), segs[|segs| - 1], aboveRoot)
  }

  /** `path.normalize(p)`. */
  function Normalize(p: string): (r: string)
    ensures r != ""
  {
    if p == "" then "."
    else
      var body := Join(Norm([], Split(p, '/'), !IsAbsolute(p)), '/');
      var trailing := p[|p| - 1] == '/';
      if IsAbsolute(p) then "/" + (if body != "" && trailing then body + "/" else body)
      else if body == "" then (if trailing then "./" else ".")
      else if trailing then body + "/"
      else body
  }

  /** `path.join(a, b)`: the non-empty arguments joined with `/`, then normalised. */
  function JoinPaths(a: string, b: string): (r: string)
    ensures r != ""
  {
    if a == "" && b == "" then "."
    else if a == "" then Normalize(b)
    else if b == "" then Normalize(a)
    else Normalize(a + "/" + b)
  }

  /** `path.resolve(p)` as a segment list: a relative path starts from `cwd`, and `..`
      never climbs above `/`. */
  function ResolveSegs(cwd: seq<string>, p: string): seq<string>
  {
    Norm(if IsAbsolute(p) then [] else cwd, Split(p, '/'), false)
  }

  /** The length of the longest common prefix of `a` and `b`. */
  function CommonPrefix(a: seq<string>, b: seq<string>): (k: nat)
    ensures k <= |a| && k <= |b| && a[..k] == b[..k]
    ensures k < |a| && k < |b| ==> a[k] != b[k]
  {
    if |a| == 0 || |b| == 0 || a[0] != b[0] then 0
    else
      var k := CommonPrefix(a[1..], b[1..]);
      assert a[..k + 1] == [a[0]] + a[1..][..k];
      assert b[..k + 1] == [b[0]] + b[1..][..k];
      k + 1
  }

  /** `n` segments `..`. */
  function Ups(n: nat): (r: seq<string>)
    ensures |r| == n && forall i :: 0 <= i < n ==> r[i] == ".."
  {
    if n == 0 then [] else Ups(n - 1) + [".."]
  }

  /** `path.relative(from, to)`: climb out of `from` to where the two resolved paths part,
      then descend into `to`. (Node answers "" early when the paths are equal, which is
      what this gives then as well.) */
  function Relative(cwd: seq<string>, from: string, to: string): string
  {
    var f := ResolveSegs(cwd, from);
    var t := ResolveSegs(cwd, to);
    var k := CommonPrefix(f, t);
    Join(Ups(|f| - k) + t[k..], '/')
  }

  function StripTrailingSlashes(p: string): (r: string)
    ensures |r| <= |p| && r == p[..|r|]
    ensures |r| == 0 || r[|r| - 1] != '/'
    ensures forall i :: |r| <= i < |p| ==> p[i] == '/'
  {
    if |p| > 0 && p[|p| - 1] == '/' then StripTrailingSlashes(p[..|p| - 1]) else p
  }

  /** `path.basename(p)`: the last segment, ignoring trailing slashes. */
  function Basename(p: string): string
  {
    var pieces := Split(StripTrailingSlashes(p), '/');
    pieces[|pieces| - 1]
  }

  /** `path.dirname(p)`: everything before the last `/` that is not the first character and
      not part of the trailing slashes; `/` or `.` when there is none. */
  function Dirname(p: string): string
  {
    if p == "" then "."
    else
      var t := if p[0] == '/' then "/" + StripTrailingSlashes(p[1..]) else StripTrailingSlashes(p);
      match LastIndexOf(t[1..], '/')
      case None => if p[0] == '/' then "/" else "."
      case Some(i) => if p[0] == '/' && i == 0 then "//" else t[..i + 1]
  }

  /** `path.extname(p)`: the basename from its last `.` on, except when that `.` is its
      first character or the basename is `..`. */
  function Extname(p: string): string
  {
    var b := Basename(p);
    match LastIndexOf(b, '.')
    case None => ""
    case Some(d) => if d == 0 || b == ".." then "" else b[d..]
  }

  // ---------------------------------------------------------------------------------------
  // Normalisation.

  lemma {:induction false} NormAppend(acc: seq<string>, a: seq<string>, b: seq<string>, above: bool)
    ensures Norm(acc, a + b, above) == Norm(Norm(acc, a, above), b, above)
  {
    if |b| == 0 {
      assert a + b == a;
    } else {
      assert (a + b)[..|a + b| - 1] == a + b[..|b| - 1];
      NormAppend(acc, a, b[..|b| - 1], above);
    }
  }

  /** Names are appended as they are. */
  lemma {:induction false} NormNames(acc: seq<string>, names: seq<string>, above: bool)
    requires Clean(names)
    ensures Norm(acc, names, above) == acc + names
  {
    if |names| > 0 {
      NormNames(acc, names[..|names| - 1], above);
      assert names == names[..|names| - 1] + [names[|names| - 1]];
    }
  }

  /** Empty and `.` segments change nothing. */
  lemma {:induction false} NormSkips(acc: seq<string>, segs: seq<string>, above: bool)
    requires forall i :: 0 <= i < |segs| ==> segs[i] == "" || segs[i] == "."
    ensures Norm(acc, segs, above) == acc
  {
    if |segs| > 0 {
      NormSkips(acc, segs[..|segs| - 1], above);
    }
  }

  /** Normalising without climbing above the start keeps a clean list clean. */
  lemma {:induction false} NormStaysClean(acc: seq<string>, segs: seq<string>)
    requires Clean(acc) && Slashless(segs)
    ensures Clean(Norm(acc, segs, false))
  {
    if |segs| > 0 {
      NormStaysClean(acc, segs[..|segs| - 1]);
    }
  }

  /** Each `..` drops one name while there is one. */
  lemma {:induction false} NormUps(acc: seq<string>, n: nat)
    requires Clean(acc) && n <= |acc|
    ensures Norm(acc, Ups(n), false) == acc[..|acc| - n]
  {
    if n > 0 {
      NormUps(acc, n - 1);
      assert Ups(n)[..n - 1] == Ups(n - 1);
      var prev := acc[..|acc| - (n - 1)];
      assert Norm(acc, Ups(n), false) == Step(prev, "..", false);
      assert prev[|prev| - 1] == acc[|acc| - n];
      assert prev[..|prev| - 1] == acc[..|acc| - n];
    }
  }

  /** What a relative normalisation keeps: `..` and names, never an empty or `.` segment. */
  predicate Kept(segs: seq<string>)
  {
    forall i :: 0 <= i < |segs| ==> segs[i] != "" && segs[i] != "." && '/' !in segs[i]
  }

  lemma {:induction false} NormKept(segs: seq<string>, above: bool)
    requires Slashless(segs)
    ensures Kept(Norm([], segs, above))
  {
    if |segs| > 0 {
      NormKept(segs[..|segs| - 1], above);
    }
  }

  /** Normalising a relative path first and resolving it afterwards resolves it. */
  lemma {:induction false} NormThenResolve(base: seq<string>, segs: seq<string>)
    requires Clean(base) && Slashless(segs)
    ensures Norm(base, Norm([], segs, true), false) == Norm(base, segs, false)
  {
    if |segs| > 0 {
      var front := segs[..|segs| - 1];
      var s := segs[|segs| - 1];
      var n := Norm([], front, true);
      NormThenResolve(base, front);
      NormKept(front, true);
      NormStaysClean(base, n);
      var x := Norm(base, n, false);
      if s == "" || s == "." {
      } else if s == ".." {
        if |n| > 0 && n[|n| - 1] != ".." {
          var m := n[..|n| - 1];
          assert n == m + [n[|n| - 1]];
          NormAppend(base, m, [n[|n| - 1]], false);
          NormStaysClean(base, m);
        } else {
          NormAppend(base, n, [".."], false);
        }
      } else {
        NormAppend(base, n, [s], false);
      }
    }
  }

  /** Empty pieces around a list of segments change nothing. */
  lemma NormPadded(base: seq<string>, pre: seq<string>, x: seq<string>, post: seq<string>, above: bool)
    requires forall i :: 0 <= i < |pre| ==> pre[i] == ""
    requires forall i :: 0 <= i < |post| ==> post[i] == ""
    ensures Norm(base, pre + x + post, above) == Norm(base, x, above)
  {
    NormAppend(base, pre + x, post, above);
    NormAppend(base, pre, x, above);
    NormSkips(base, pre, above);
    NormSkips(Norm(base, x, above), post, above);
  }

  /** The text of a normalised body, between an optional leading and trailing `/`, splits
      into the body's segments and empty pieces. */
  lemma SplitFramed(segs: seq<string>, lead: bool, trail: bool)
    requires Kept(segs) && segs != []
    ensures var body := Join(segs, '/');
      Split((if lead then "/" else "") + body + (if trail then "/" else ""), '/')
      == (if lead then [""] else []) + segs + (if trail then [""] else [])
  {
    var body := Join(segs, '/');
    SplitJoin(segs, '/');
    var post: seq<string> := if trail then [""] else [];
    var tail := body + (if trail then "/" else "");
    assert Split(tail, '/') == segs + post by {
      if trail {
        assert tail == body + ['/'] + "";
        SplitAround(body, "", '/');
      } else {
        assert tail == body;
      }
    }
    var text := (if lead then "/" else "") + body + (if trail then "/" else "");
    if lead {
      assert text == "" + ['/'] + tail;
      SplitAround("", tail, '/');
      assert Split(text, '/') == [""] + (segs + post);
    } else {
      assert text == tail;
    }
  }

  lemma ResolveNormalizeAbsolute(cwd: seq<string>, p: string)
    requires IsAbsolute(p)
    ensures ResolveSegs(cwd, Normalize(p)) == ResolveSegs(cwd, p)
  {
    var segs := Norm([], Split(p, '/'), false);
    SplitPieces(p, '/');
    NormStaysClean([], Split(p, '/'));
    NormKept(Split(p, '/'), false);
    NormNames([], segs, false);
    var q := Normalize(p);
    if segs == [] {
      assert Join(segs, '/') == "";
      assert q == "/";
      ResolveSlash(cwd);
    } else {
      var trail := p[|p| - 1] == '/';
      assert q == "/" + Join(segs, '/') + (if trail then "/" else "");
      ResolveFramed(cwd, segs, trail);
    }
  }

  /** `/` resolves to itself. */
  lemma ResolveSlash(cwd: seq<string>)
    ensures ResolveSegs(cwd, "/") == []
  {
    assert "/" == "" + ['/'] + "";
    SplitAround("", "", '/');
    assert Split("/", '/') == ["", ""];
    NormSkips([], ["", ""], false);
  }

  /** An absolute path spelled from clean names, with or without a trailing `/`, resolves to
      the names. */
  lemma ResolveFramed(cwd: seq<string>, segs: seq<string>, trail: bool)
    requires Clean(segs) && segs != []
    ensures ResolveSegs(cwd, "/" + Join(segs, '/') + (if trail then "/" else "")) == segs
  {
    assert Kept(segs);
    SplitFramed(segs, true, trail);
    NormPadded([], [""], segs, if trail then [""] else [], false);
    NormNames([], segs, false);
  }

  /** A relative path that normalises to nothing becomes `.` or `./`, the working directory. */
  lemma ResolveNormalizeRelativeEmpty(cwd: seq<string>, p: string)
    requires Clean(cwd) && p != "" && !IsAbsolute(p)
    requires Norm([], Split(p, '/'), true) == []
    ensures ResolveSegs(cwd, Normalize(p)) == cwd
  {
    assert Join([], '/') == "";
    var q := Normalize(p);
    if p[|p| - 1] == '/' {
      assert q == "." + ['/'] + "";
      SplitAround(".", "", '/');
      SplitWithout(".", '/');
      SplitWithout("", '/');
      assert Split(q, '/') == [".", ""];
      NormSkips(cwd, [".", ""], false);
    } else {
      assert q == ".";
      SplitWithout(".", '/');
      NormSkips(cwd, ["."], false);
    }
  }

  lemma ResolveNormalizeRelative(cwd: seq<string>, p: string)
    requires Clean(cwd) && p != "" && !IsAbsolute(p)
    ensures ResolveSegs(cwd, Normalize(p)) == ResolveSegs(cwd, p)
  {
    var segs := Norm([], Split(p, '/'), true);
    SplitPieces(p, '/');
    NormThenResolve(cwd, Split(p, '/'));
    if segs == [] {
      NormSkips(cwd, [], false);
      ResolveNormalizeRelativeEmpty(cwd, p);
    } else {
      NormKept(Split(p, '/'), true);
      var trail := p[|p| - 1] == '/';
      assert Normalize(p) == Join(segs, '/') + (if trail then "/" else "");
      ResolveRelativeFramed(cwd, segs, trail);
    }
  }

  /** A relative path spelled from kept segments, with or without a trailing `/`, follows
      them from `cwd`. */
  lemma ResolveRelativeFramed(cwd: seq<string>, segs: seq<string>, trail: bool)
    requires Kept(segs) && segs != []
    ensures ResolveSegs(cwd, Join(segs, '/') + (if trail then "/" else "")) == Norm(cwd, segs, false)
  {
    var q := Join(segs, '/') + (if trail then "/" else "");
    SplitFramed(segs, false, trail);
    assert q == "" + Join(segs, '/') + (if trail then "/" else "");
    NormPadded(cwd, [], segs, if trail then [""] else [], false);
    assert Join(segs, '/')[0] != '/' by {
      SplitJoin(segs, '/');
      assert Split(Join(segs, '/'), '/')[0] == segs[0];
    }
    assert !IsAbsolute(q);
  }

  /** `path.normalize` does not change where a path resolves to. */
  lemma ResolveNormalize(cwd: seq<string>, p: string)
    requires Clean(cwd)
    ensures ResolveSegs(cwd, Normalize(p)) == ResolveSegs(cwd, p)
  {
    if p == "" {
      SplitWithout(".", '/');
      NormSkips(cwd, ["."], false);
      NormSkips(cwd, [""], false);
    } else if IsAbsolute(p) {
      ResolveNormalizeAbsolute(cwd, p);
    } else {
      ResolveNormalizeRelative(cwd, p);
    }
  }

  // ---------------------------------------------------------------------------------------
  // Paths made of plain names.

  /** Joining clean names gives a relative path that neither starts nor ends with `/`. */
  lemma CleanJoinShape(segs: seq<string>)
    requires Clean(segs) && segs != []
    ensures var p := Join(segs, '/');
      p != "" && !IsAbsolute(p) && p[|p| - 1] != '/' && Split(p, '/') == segs
  {
    var p := Join(segs, '/');
    SplitJoin(segs, '/');
    if p != "" && p[0] == '/' {
      SplitLeading(p, '/');
    }
    if p != "" && p[|p| - 1] == '/' {
      SplitTrailing(p, '/');
    }
  }

  /** `path.normalize` leaves a path of clean names as it is. */
  lemma NormalizeClean(segs: seq<string>)
    requires Clean(segs) && segs != []
    ensures Normalize(Join(segs, '/')) == Join(segs, '/')
  {
    var p := Join(segs, '/');
    CleanJoinShape(segs);
    NormNames([], segs, true);
    assert Norm([], Split(p, '/'), !IsAbsolute(p)) == segs;
  }

  /** A path of clean names resolves to those names below the working directory. */
  lemma ResolveClean(cwd: seq<string>, segs: seq<string>)
    requires Clean(segs)
    ensures ResolveSegs(cwd, Join(segs, '/')) == cwd + segs
  {
    if segs == [] {
      assert Join(segs, '/') == "";
      NormSkips(cwd, [""], false);
      assert cwd + segs == cwd;
    } else {
      CleanJoinShape(segs);
      NormNames(cwd, segs, false);
    }
  }

  /** `.` is the working directory. */
  lemma ResolveDot(cwd: seq<string>)
    ensures ResolveSegs(cwd, ".") == cwd
  {
    SplitWithout(".", '/');
    NormSkips(cwd, ["."], false);
  }

  /** Resolved paths consist of clean names. */
  lemma ResolveIsClean(cwd: seq<string>, p: string)
    requires Clean(cwd)
    ensures Clean(ResolveSegs(cwd, p))
  {
    SplitPieces(p, '/');
    NormStaysClean(if IsAbsolute(p) then [] else cwd, Split(p, '/'));
  }

  lemma BasenameNoSlash(b: string)
    requires '/' !in b
    ensures Basename(b) == b
  {
    SplitWithout(b, '/');
  }

  /** The basename is what follows the last `/`. */
  lemma BasenameAfterSlash(d: string, b: string)
    requires '/' !in b && b != ""
    ensures Basename(d + "/" + b) == b
  {
    var p := d + "/" + b;
    assert p[|p| - 1] == b[|b| - 1];
    assert p == d + ['/'] + b;
    SplitAround(d, b, '/');
    SplitWithout(b, '/');
  }

  /** The basename of clean names is the last name. */
  lemma BasenameClean(segs: seq<string>)
    requires Clean(segs) && segs != []
    ensures Basename(Join(segs, '/')) == segs[|segs| - 1]
  {
    CleanJoinShape(segs);
  }

  // ---------------------------------------------------------------------------------------
  // `relative` and `join`.

  /** Two paths agree up to the whole of the shorter when one lies below the other. */
  lemma CommonPrefixBelow(a: seq<string>, rest: seq<string>)
    ensures CommonPrefix(a, a + rest) == |a|
  {
  }

  /** From a directory, a path below it is named by the segments below. */
  lemma RelativeBelow(cwd: seq<string>, from: string, to: string, rest: seq<string>)
    requires ResolveSegs(cwd, to) == ResolveSegs(cwd, from) + rest
    ensures Relative(cwd, from, to) == Join(rest, '/')
  {
    var f := ResolveSegs(cwd, from);
    CommonPrefixBelow(f, rest);
    assert (f + rest)[|f|..] == rest;
    assert Ups(0) + rest == rest;
  }

  /** Joining clean names onto a path descends into them. */
  lemma ResolveJoinNames(cwd: seq<string>, a: string, rest: seq<string>)
    requires Clean(cwd) && Clean(rest) && a != ""
    ensures ResolveSegs(cwd, JoinPaths(a, Join(rest, '/'))) == ResolveSegs(cwd, a) + rest
  {
    if rest == [] {
      assert Join(rest, '/') == "";
      ResolveNormalize(cwd, a);
      assert ResolveSegs(cwd, a) + rest == ResolveSegs(cwd, a);
    } else {
      var r := Join(rest, '/');
      CleanJoinShape(rest);
      var p := a + "/" + r;
      ResolveNormalize(cwd, p);
      assert p == a + ['/'] + r;
      SplitAround(a, r, '/');
      assert IsAbsolute(p) == IsAbsolute(a);
      var base := if IsAbsolute(a) then [] else cwd;
      NormAppend(base, Split(a, '/'), rest, false);
      NormNames(Norm(base, Split(a, '/'), false), rest, false);
    }
  }

  /** `b + "/" + name` resolves to the entry `name` inside `b`. */
  lemma ResolveChild(cwd: seq<string>, b: string, name: string)
    requires b != "" && IsName(name)
    ensures ResolveSegs(cwd, b + "/" + name) == ResolveSegs(cwd, b) + [name]
  {
    assert b + "/" + name == b + ['/'] + name;
    SplitAround(b, name, '/');
    SplitWithout(name, '/');
    var start := if IsAbsolute(b) then [] else cwd;
    NormAppend(start, Split(b, '/'), [name], false);
  }

  /** However `path.join` or `normalize` spell it, the entry `name` inside `b` resolves the
      same. */
  lemma ResolveJoinChild(cwd: seq<string>, b: string, name: string)
    requires Clean(cwd) && b != "" && IsName(name)
    ensures ResolveSegs(cwd, JoinPaths(b, name)) == ResolveSegs(cwd, b) + [name]
    ensures ResolveSegs(cwd, Normalize(JoinPaths(b, name))) == ResolveSegs(cwd, b) + [name]
    ensures ResolveSegs(cwd, Normalize(b + "/" + name)) == ResolveSegs(cwd, b) + [name]
  {
    ResolveChild(cwd, b, name);
    ResolveNormalize(cwd, b + "/" + name);
    ResolveNormalize(cwd, JoinPaths(b, name));
  }

  /** The segments of a relative result: `..` and clean names. */
  lemma RelativeSplit(cwd: seq<string>, from: string, to: string)
    requires Clean(cwd)
    ensures var f := ResolveSegs(cwd, from);
      var t := ResolveSegs(cwd, to);
      var k := CommonPrefix(f, t);
      var parts := Ups(|f| - k) + t[k..];
      parts != [] ==> Split(Relative(cwd, from, to), '/') == parts
  {
    var f := ResolveSegs(cwd, from);
    var t := ResolveSegs(cwd, to);
    ResolveIsClean(cwd, to);
    var k := CommonPrefix(f, t);
    var parts := Ups(|f| - k) + t[k..];
    if parts != [] {
      CleanSuffix(t, k);
      UpsSplit(|f| - k, t[k..]);
    }
  }

  /** Climbing `..`s followed by clean names hold no `/`, so splitting their join gives them
      back. */
  lemma UpsSplit(n: nat, names: seq<string>)
    requires Clean(names) && Ups(n) + names != []
    ensures Split(Join(Ups(n) + names, '/'), '/') == Ups(n) + names
  {
    var parts := Ups(n) + names;
    forall i | 0 <= i < |parts| ensures '/' !in parts[i] {
      if i >= n {
        assert parts[i] == names[i - n];
      }
    }
    SplitJoin(parts, '/');
  }

  lemma CleanSuffix(t: seq<string>, k: nat)
    requires Clean(t) && k <= |t|
    ensures Clean(t[k..])
  {
    forall i | 0 <= i < |t| - k ensures IsName(t[k..][i]) {
      assert t[k..][i] == t[k + i];
    }
  }

  /** Climbing to the common prefix and descending again reaches the target. */
  lemma NormRelativeParts(f: seq<string>, t: seq<string>, k: nat)
    requires Clean(f) && Clean(t) && k <= |f| && k <= |t| && f[..k] == t[..k]
    ensures Norm(f, Ups(|f| - k) + t[k..], false) == t
  {
    var up := Ups(|f| - k);
    NormAppend(f, up, t[k..], false);
    NormUps(f, |f| - k);
    PrefixSplit(f, t, k);
    CleanSuffix(t, k);
    NormNames(t[..k], t[k..], false);
  }

  lemma PrefixSplit(f: seq<string>, t: seq<string>, k: nat)
    requires k <= |f| && k <= |t| && f[..k] == t[..k]
    ensures f[..|f| - (|f| - k)] == t[..k] && t[..k] + t[k..] == t
  {
  }

  /** Joining a relative path whose segments are `segs` onto `a` follows `segs` from `a`. */
  lemma ResolveJoinSegs(cwd: seq<string>, a: string, r: string, segs: seq<string>)
    requires Clean(cwd) && a != "" && r != "" && Split(r, '/') == segs
    ensures ResolveSegs(cwd, JoinPaths(a, r)) == Norm(ResolveSegs(cwd, a), segs, false)
  {
    var p := a + "/" + r;
    ResolveNormalize(cwd, p);
    assert p == a + ['/'] + r;
    SplitAround(a, r, '/');
    assert IsAbsolute(p) == IsAbsolute(a);
    var base := if IsAbsolute(a) then [] else cwd;
    NormAppend(base, Split(a, '/'), segs, false);
  }

  /** The segments of `path.relative(from, to)`: followed from `from`, they reach `to`. */
  lemma RelativeParts(cwd: seq<string>, from: string, to: string) returns (parts: seq<string>)
    requires Clean(cwd)
    ensures Relative(cwd, from, to) == Join(parts, '/')
    ensures Norm(ResolveSegs(cwd, from), parts, false) == ResolveSegs(cwd, to)
    ensures parts != [] ==> Split(Join(parts, '/'), '/') == parts && Join(parts, '/') != ""
  {
    var f := ResolveSegs(cwd, from);
    var t := ResolveSegs(cwd, to);
    ResolveIsClean(cwd, from);
    ResolveIsClean(cwd, to);
    var k := CommonPrefix(f, t);
    parts := Ups(|f| - k) + t[k..];
    NormRelativeParts(f, t, k);
    RelativeSplit(cwd, from, to);
  }

  /** `path.join(from, path.relative(from, to))` resolves to `to`. */
  lemma RelativeRoundTrip(cwd: seq<string>, from: string, to: string)
    requires Clean(cwd) && from != ""
    ensures ResolveSegs(cwd, JoinPaths(from, Relative(cwd, from, to))) == ResolveSegs(cwd, to)
  {
    var parts := RelativeParts(cwd, from, to);
    var rel := Relative(cwd, from, to);
    if parts == [] {
      assert rel == "";
      ResolveNormalize(cwd, from);
    } else {
      ResolveJoinSegs(cwd, from, rel, parts);
    }
  }

  /** A path that does not end with `/` is a directory part followed by its basename. */
  lemma BasenameSplit(p: string) returns (dir: string)
    requires p == "" || p[|p| - 1] != '/'
    ensures p == dir + Basename(p) && '/' !in Basename(p)
  {
    assert StripTrailingSlashes(p) == p;
    match LastIndexOf(p, '/')
    case None =>
      SplitWithout(p, '/');
      dir := "";
    case Some(i) =>
      SplitAtLast(p, '/');
      dir := p[..i + 1];
      assert p == dir + p[i + 1..];
  }
}
