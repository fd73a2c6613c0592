/** `getBuildPath` and the two directories it works between: where a source file lands
    under the build directory, with its converter's extension trimmed when it has one. */
module BuildPath {

  import opened Wrappers
  import opened JsString
  import opened NodePath

  /** The directories an `Elem` works with. `cwd` is the process's working directory, against
      which `path.relative` resolves `root` and every file. */
  datatype Layout = Layout(cwd: seq<string>, root: string, buildDir: string)

  /** What `getBuildPath` and the `build` pipeline need of a layout: a working directory in
      resolved form and the two directories set. */
  predicate ValidLayout(lay: Layout)
  {
    Clean(lay.cwd) && lay.root != "" && lay.buildDir != ""
  }

  /** The constructor's defaults: `root || '.'` and `options.buildDir || path.join(root,
      '_build')`; the empty string stands for an argument not given (every falsy string is
      the empty one). */
  function NewLayout(cwd: seq<string>, root: string, buildDir: string): (lay: Layout)
    requires Clean(cwd)
    ensures ValidLayout(lay) && lay.cwd == cwd
    ensures lay.root == (if root == "" then "." else root)
    ensures buildDir != "" ==> lay.buildDir == buildDir
    ensures buildDir == "" ==> lay.buildDir == JoinPaths(lay.root, "_build")
  {
    var r := if root == "" then "." else root;
    Layout(cwd, r, if buildDir == "" then JoinPaths(r, "_build") else buildDir)
  }

  /** `s.split('.').slice(0, -1).join('.')`: `s` without its last `.`-piece. */
  function DropLastPiece(s: string): string
  {
    var ps := Split(s, '.');
    Join(ps[..|ps| - 1], '.')
  }

  /** Whether `getBuildPath` trims: only when asked and the basename has at least two dots. */
  predicate Trims(n: string, trimExt: bool)
  {
    trimExt && |Split(Basename(n), '.')| > 2
  }

  /** The source path `getBuildPath` re-roots: the normalised file, trimmed when it trims. */
  function TrimmedSource(file: string, trimExt: bool): string
  {
    var n := Normalize(file);
    if Trims(n, trimExt) then DropLastPiece(n) else n
  }

  /** `getBuildPath(file, trimExt)`. */
  function GetBuildPath(lay: Layout, file: string, trimExt: bool): string
  {
    Normalize(JoinPaths(lay.buildDir, Relative(lay.cwd, lay.root, TrimmedSource(file, trimExt))))
  }

  // ---------------------------------------------------------------------------------------
  // Trimming removes exactly the last `.`-piece.

  lemma DropLastPieceAt(s: string)
    requires '.' in s
    ensures DropLastPiece(s) == s[..LastIndexOf(s, '.').value]
  {
    var i := LastIndexOf(s, '.').value;
    SplitAtLast(s, '.');
    var front := Split(s[..i], '.');
    var ps := Split(s, '.');
    assert ps[..|ps| - 1] == front;
    JoinSplit(s[..i], '.');
  }

  lemma DropLastPieceAfter(dir: string, name: string)
    requires '.' in name
    ensures DropLastPiece(dir + name) == dir + DropLastPiece(name)
  {
    var i := LastIndexOf(name, '.').value;
    LastIndexOfAppend(dir, name, '.');
    assert '.' in dir + name by { assert (dir + name)[|dir| + i] == '.'; }
    DropLastPieceAt(dir + name);
    DropLastPieceAt(name);
    assert (dir + name)[..|dir| + i] == dir + name[..i];
  }

  /** A name with two dots or more is its front, a `.` and its last piece. */
  lemma DropLastPieceShape(name: string)
    requires '.' in name
    ensures var ps := Split(name, '.');
      name == DropLastPiece(name) + "." + ps[|ps| - 1] && '.' !in ps[|ps| - 1]
  {
    var i := LastIndexOf(name, '.').value;
    var ps := Split(name, '.');
    SplitAtLast(name, '.');
    DropLastPieceAt(name);
    CutAt(name, i, DropLastPiece(name), ps[|ps| - 1]);
  }

  lemma CutAt(s: string, i: nat, front: string, back: string)
    requires i < |s| && s[i] == '.' && front == s[..i] && back == s[i + 1..]
    ensures s == front + "." + back
  {
    assert s == s[..i] + [s[i]] + s[i + 1..];
  }

  lemma SplitHasDot(s: string)
    requires |Split(s, '.')| > 1
    ensures '.' in s
  {
    if '.' !in s {
      SplitWithout(s, '.');
    }
  }

  /** When it trims, `getBuildPath` cuts the normalised path just before the last `.` of its
      basename, removing that `.` and the extension after it, which holds neither `.` nor `/`;
      otherwise it keeps the normalised path whole. */
  lemma TrimmedSourceDropsLastExtension(file: string, trimExt: bool)
    requires var n := Normalize(file); n[|n| - 1] != '/'
    ensures var n := Normalize(file);
      var pieces := Split(Basename(n), '.');
      var ext := pieces[|pieces| - 1];
      (Trims(n, trimExt) ==>
        n == TrimmedSource(file, trimExt) + "." + ext && '.' !in ext && '/' !in ext) &&
      (!Trims(n, trimExt) ==> TrimmedSource(file, trimExt) == n)
  {
    var n := Normalize(file);
    if Trims(n, trimExt) {
      var b := Basename(n);
      var dir := BasenameSplit(n);
      SplitHasDot(b);
      DropLastPieceAfter(dir, b);
      DropLastPieceShape(b);
      var pieces := Split(b, '.');
      var ext := pieces[|pieces| - 1];
      assert TrimmedSource(file, trimExt) == dir + DropLastPiece(b);
      Assoc(dir, DropLastPiece(b), ".");
      Assoc(dir, DropLastPiece(b) + ".", ext);
      assert ext in pieces[1..] by { assert pieces[1..][|pieces| - 2] == ext; }
      SplitPieces(b, '.');
    }
  }

  // ---------------------------------------------------------------------------------------
  // Re-rooting from `root` onto `buildDir`.

  /** A (trimmed) source that resolves to `rest` below `root` gets a build path that
      resolves to the same `rest` below `buildDir`. */
  lemma GetBuildPathMirrors(lay: Layout, file: string, trimExt: bool, rest: seq<string>)
    requires ValidLayout(lay)
    requires ResolveSegs(lay.cwd, TrimmedSource(file, trimExt)) == ResolveSegs(lay.cwd, lay.root) + rest
    ensures ResolveSegs(lay.cwd, GetBuildPath(lay, file, trimExt))
         == ResolveSegs(lay.cwd, lay.buildDir) + rest
  {
    var t := TrimmedSource(file, trimExt);
    RelativeBelow(lay.cwd, lay.root, t, rest);
    ResolveIsClean(lay.cwd, t);
    CleanSuffix(ResolveSegs(lay.cwd, t), |ResolveSegs(lay.cwd, lay.root)|);
    assert ResolveSegs(lay.cwd, t)[|ResolveSegs(lay.cwd, lay.root)|..] == rest;
    ResolveJoinNames(lay.cwd, lay.buildDir, rest);
    ResolveNormalize(lay.cwd, JoinPaths(lay.buildDir, Join(rest, '/')));
  }

  /** Seen from `buildDir`, the build path is where the (trimmed) source is seen from
      `root`; the `files` of the index are therefore the source names. */
  lemma GetBuildPathRelative(lay: Layout, file: string, trimExt: bool, rest: seq<string>)
    requires ValidLayout(lay)
    requires ResolveSegs(lay.cwd, TrimmedSource(file, trimExt)) == ResolveSegs(lay.cwd, lay.root) + rest
    ensures Relative(lay.cwd, lay.buildDir, GetBuildPath(lay, file, trimExt))
         == Relative(lay.cwd, lay.root, TrimmedSource(file, trimExt))
  {
    GetBuildPathMirrors(lay, file, trimExt, rest);
    RelativeBelow(lay.cwd, lay.buildDir, GetBuildPath(lay, file, trimExt), rest);
    RelativeBelow(lay.cwd, lay.root, TrimmedSource(file, trimExt), rest);
  }

  // ---------------------------------------------------------------------------------------
  // Clean relative paths, as the tests write them.

  /** The name a file keeps once trimmed. */
  function TrimmedName(name: string, trimExt: bool): string
  {
    if trimExt && |Split(name, '.')| > 2 then DropLastPiece(name) else name
  }

  lemma TrimmedSourceClean(prefix: seq<string>, name: string, trimExt: bool)
    requires Clean(prefix + [name])
    ensures TrimmedSource(Join(prefix + [name], '/'), trimExt)
         == Join(prefix + [TrimmedName(name, trimExt)], '/')
  {
    var segs := prefix + [name];
    NormalizeClean(segs);
    BasenameClean(segs);
    if trimExt && |Split(name, '.')| > 2 {
      SplitHasDot(name);
      if prefix == [] {
        assert segs == [name];
      } else {
        var d := Join(prefix, '/');
        JoinAppend(prefix, [name], '/');
        JoinAppend(prefix, [TrimmedName(name, trimExt)], '/');
        DropLastPieceAfter(d + "/", name);
      }
    }
  }

  lemma CleanConcat(a: seq<string>, b: seq<string>)
    requires Clean(a) && Clean(b)
    ensures Clean(a + b)
  {
    assert forall i :: 0 <= i < |a| ==> (a + b)[i] == a[i];
    assert forall i :: 0 <= i < |b| ==> (a + b)[|a| + i] == b[i];
  }

  lemma CleanFront(a: seq<string>, x: string)
    requires Clean(a + [x])
    ensures Clean(a)
  {
    assert forall i :: 0 <= i < |a| ==> (a + [x])[i] == a[i];
  }

  /** The trimmed source seen from `root` is the part below it, trimmed. */
  lemma RelativeTrimmedClean(cwd: seq<string>, root: string, src: seq<string>,
                             dirs: seq<string>, name: string, trimExt: bool)
    requires Clean(src + dirs + [name]) && IsName(TrimmedName(name, trimExt))
    requires ResolveSegs(cwd, root) == cwd + src
    ensures Relative(cwd, root, TrimmedSource(Join(src + dirs + [name], '/'), trimExt))
         == Join(dirs + [TrimmedName(name, trimExt)], '/')
  {
    var t := TrimmedSource(Join(src + dirs + [name], '/'), trimExt);
    TrimmedResolves(cwd, src, dirs, name, trimExt);
    RelativeBelow(cwd, root, t, dirs + [TrimmedName(name, trimExt)]);
  }

  /** The trimmed source of a clean path resolves to the path with its last name trimmed. */
  lemma TrimmedResolves(cwd: seq<string>, src: seq<string>, dirs: seq<string>, name: string, trimExt: bool)
    requires Clean(src + dirs + [name]) && IsName(TrimmedName(name, trimExt))
    ensures ResolveSegs(cwd, TrimmedSource(Join(src + dirs + [name], '/'), trimExt))
         == cwd + src + (dirs + [TrimmedName(name, trimExt)])
  {
    var n := TrimmedName(name, trimExt);
    var segs := src + dirs + [n];
    CleanFront(src + dirs, name);
    CleanConcat(src + dirs, [n]);
    TrimmedSourceClean(src + dirs, name, trimExt);
    ResolveClean(cwd, segs);
    Regroup(cwd, src, dirs, n);
  }

  lemma Regroup(cwd: seq<string>, src: seq<string>, dirs: seq<string>, n: string)
    ensures cwd + (src + dirs + [n]) == cwd + src + (dirs + [n])
  {
  }

  /** For clean names, `getBuildPath` swaps the `root` prefix of the file for the `buildDir`
      prefix and trims the last name as `TrimmedName` says. */
  lemma GetBuildPathClean(cwd: seq<string>, root: string, buildDir: seq<string>, src: seq<string>,
                          dirs: seq<string>, name: string, trimExt: bool)
    requires Clean(cwd) && root != "" && buildDir != []
    requires Clean(buildDir) && Clean(src + dirs + [name]) && IsName(TrimmedName(name, trimExt))
    requires ResolveSegs(cwd, root) == cwd + src
    ensures GetBuildPath(Layout(cwd, root, Join(buildDir, '/')), Join(src + dirs + [name], '/'), trimExt)
         == Join(buildDir + dirs + [TrimmedName(name, trimExt)], '/')
  {
    var n := TrimmedName(name, trimExt);
    RelativeTrimmedClean(cwd, root, src, dirs, name, trimExt);
    CleanBelow(src, dirs, name, n);
    JoinClean(buildDir, dirs + [n]);
    assert buildDir + (dirs + [n]) == buildDir + dirs + [n];
  }

  /** The names below `src`, with the last one replaced by a name. */
  lemma CleanBelow(src: seq<string>, dirs: seq<string>, name: string, n: string)
    requires Clean(src + dirs + [name]) && IsName(n)
    ensures Clean(dirs + [n])
  {
    forall i | 0 <= i < |dirs| ensures IsName(dirs[i]) {
      assert (src + dirs + [name])[|src| + i] == dirs[i];
    }
    assert forall i :: 0 <= i < |dirs| ==> (dirs + [n])[i] == dirs[i];
  }

  /** Joining two clean relative paths concatenates their names. */
  lemma JoinClean(a: seq<string>, b: seq<string>)
    requires Clean(a) && Clean(b) && a != [] && b != []
    ensures Normalize(JoinPaths(Join(a, '/'), Join(b, '/'))) == Join(a + b, '/')
  {
    CleanJoinShape(a);
    CleanJoinShape(b);
    CleanConcat(a, b);
    JoinAppend(a, b, '/');
    NormalizeClean(a + b);
  }

  /** `name.ext` with a dotted `name` and a plain `ext` trims to `name`. */
  lemma TrimmedExtension(name: string, ext: string)
    requires '.' in name && '.' !in ext
    ensures TrimmedName(name + "." + ext, true) == name
  {
    var full := name + "." + ext;
    assert full == name + ['.'] + ext;
    SplitAround(name, ext, '.');
    SplitWithout(ext, '.');
    SplitCount(name, '.');
    CountPositive(name, '.');
    var ps := Split(full, '.');
    assert ps[..|ps| - 1] == Split(name, '.');
    JoinSplit(name, '.');
  }

  /** The root as a clean name resolves below `cwd`, and its `_build` default is clean. */
  lemma BaseLayout(cwd: seq<string>, base: string)
    requires Clean(cwd) && IsName(base)
    ensures ResolveSegs(cwd, base) == cwd + [base]
    ensures NewLayout(cwd, base, "") == Layout(cwd, base, Join([base, "_build"], '/'))
    ensures Clean([base, "_build"])
  {
    ResolveClean(cwd, [base]);
    assert Join([base, "_build"], '/') == base + "/" + "_build";
    NormalizeClean([base, "_build"]);
  }

  lemma NameOf(name: string, ext: string)
    requires IsName(name) && IsName(ext)
    ensures IsName(name + "." + ext)
  {
    assert (name + "." + ext)[|name|] == '.';
  }

  /** The name is kept whole when no trimming is asked or it holds at most one dot. */
  lemma KeepsName(name: string, trimExt: bool)
    requires !trimExt || |Split(name, '.')| <= 2
    ensures TrimmedName(name, trimExt) == name
  {
  }

  lemma CleanPair(a: string, b: string)
    requires IsName(a) && IsName(b)
    ensures Clean([a] + [] + [b]) && [a] + [] + [b] == [a, b]
  {
    var segs := [a] + [] + [b];
    assert forall i :: 0 <= i < |segs| ==> segs[i] in {a, b};
  }

  lemma CleanTriple(a: string, b: string, c: string)
    requires IsName(a) && IsName(b) && IsName(c)
    ensures Clean([a] + [b] + [c]) && [a] + [b] + [c] == [a, b, c]
  {
    var segs := [a] + [b] + [c];
    assert forall i :: 0 <= i < |segs| ==> segs[i] in {a, b, c};
  }

  /** test/test.elem.js "works with a base" and "can prune the last extension": with base
      `base`, name `body.html` and extension `jade`, `base/body.html.jade` gives
      `base/_build/body.html`. */
  lemma GetBuildPathWithBase(cwd: seq<string>, base: string, name: string, ext: string)
    requires Clean(cwd) && IsName(base) && IsName(name) && IsName(ext)
    requires '.' in name && '.' !in ext
    ensures GetBuildPath(NewLayout(cwd, base, ""), Join([base, name + "." + ext], '/'), true)
         == Join([base, "_build", name], '/')
  {
    BaseLayout(cwd, base);
    NameOf(name, ext);
    TrimmedExtension(name, ext);
    CleanPair(base, name + "." + ext);
    assert [base, "_build"] + [] + [name] == [base, "_build", name];
    GetBuildPathClean(cwd, base, [base, "_build"], [base], [], name + "." + ext, true);
  }

  /** `path.join('.', '_build')` is `_build`. */
  lemma DefaultBuildDir()
    ensures JoinPaths(".", "_build") == Join(["_build"], '/')
    ensures Clean(["_build"])
  {
    var p := "." + "/" + "_build";
    assert p == "." + ['/'] + "_build";
    SplitAround(".", "_build", '/');
    SplitWithout(".", '/');
    SplitWithout("_build", '/');
    var segs := [".", "_build"];
    assert segs[..1] == ["."];
    assert Norm([], segs, true) == ["_build"];
  }

  /** test/test.elem.js "works without a base": root `.` and build directory `_build`, so
      `body.html.jade` gives `_build/body.html`. */
  lemma GetBuildPathWithoutBase(cwd: seq<string>, name: string, ext: string)
    requires Clean(cwd) && IsName(name) && IsName(ext)
    requires '.' in name && '.' !in ext
    ensures GetBuildPath(NewLayout(cwd, "", ""), name + "." + ext, true) == Join(["_build", name], '/')
  {
    DefaultBuildDir();
    ResolveDot(cwd);
    NameOf(name, ext);
    TrimmedExtension(name, ext);
    var segs := [] + [] + [name + "." + ext];
    assert segs == [name + "." + ext];
    assert Clean(segs);
    assert ["_build"] + [] + [name] == ["_build", name];
    GetBuildPathClean(cwd, ".", ["_build"], [], [], name + "." + ext, true);
  }

  /** test/test.elem.js "leaves singletons alone" and "leaves extensionless alone": a name with
      at most one dot, or any name when no trimming is asked, is only re-rooted; `base/body.html`
      and `base/body` give `base/_build/body.html` and `base/_build/body`. */
  lemma GetBuildPathUntrimmed(cwd: seq<string>, base: string, name: string, trimExt: bool)
    requires Clean(cwd) && IsName(base) && IsName(name)
    requires !trimExt || |Split(name, '.')| <= 2
    ensures GetBuildPath(NewLayout(cwd, base, ""), Join([base, name], '/'), trimExt)
         == Join([base, "_build", name], '/')
  {
    KeepsName(name, trimExt);
    CleanPair(base, name);
    assert [base, "_build"] + [] + [name] == [base, "_build", name];
    BaseLayout(cwd, base);
    GetBuildPathClean(cwd, base, [base, "_build"], [base], [], name, trimExt);
  }

  /** test/test.elem.js "can handle a path with a . in it": a dot in a directory is never an
      extension, so `base/poop.js/body.html` gives `base/_build/poop.js/body.html`. */
  lemma GetBuildPathDottedDirectory(cwd: seq<string>, base: string, dir: string, name: string, trimExt: bool)
    requires Clean(cwd) && IsName(base) && IsName(dir) && IsName(name)
    requires !trimExt || |Split(name, '.')| <= 2
    ensures GetBuildPath(NewLayout(cwd, base, ""), Join([base, dir, name], '/'), trimExt)
         == Join([base, "_build", dir, name], '/')
  {
    KeepsName(name, trimExt);
    CleanTriple(base, dir, name);
    assert [base, "_build"] + [dir] + [name] == [base, "_build", dir, name];
    BaseLayout(cwd, base);
    GetBuildPathClean(cwd, base, [base, "_build"], [base], [dir], name, trimExt);
  }

  lemma NormUpAndBack(base: string, dir: string, name: string)
    requires IsName(base) && IsName(dir) && IsName(name)
    ensures Norm([], [base, dir, "..", name], true) == [base, name]
  {
    NormAppend([], [base, dir], ["..", name], true);
    assert [base, dir] + ["..", name] == [base, dir, "..", name];
    NormNames([], [base, dir], true);
    assert [] + [base, dir] == [base, dir];
    assert ["..", name][..1] == [".."];
    assert Norm([base, dir], [".."], true) == Step([base, dir], "..", true) == [base];
    assert Norm([base, dir], ["..", name], true) == Step([base], name, true);
  }

  lemma UpAndBackShape(base: string, dir: string, name: string)
    requires IsName(base) && IsName(dir) && IsName(name)
    ensures var p := Join([base, dir, "..", name], '/');
      Split(p, '/') == [base, dir, "..", name] && p[0] == base[0] && p[|p| - 1] == name[|name| - 1]
  {
    var segs := [base, dir, "..", name];
    var p := Join(segs, '/');
    assert forall i :: 0 <= i < |segs| ==> segs[i] in {base, dir, "..", name};
    SplitJoin(segs, '/');
    assert p == base + ['/'] + Join(segs[1..], '/');
    JoinAt(segs, 3, '/');
    assert segs[3..] == [name];
  }

  /** `base/dir/../name` normalises to `base/name`. */
  lemma NormalizeUpAndBack(base: string, dir: string, name: string)
    requires IsName(base) && IsName(dir) && IsName(name)
    ensures Normalize(Join([base, dir, "..", name], '/')) == Join([base, name], '/')
  {
    NormUpAndBack(base, dir, name);
    UpAndBackShape(base, dir, name);
  }

  /** test/test.elem.js "normalizes": `base/widget/../body.html` gives `base/_build/body.html`. */
  lemma GetBuildPathNormalizes(cwd: seq<string>, base: string, dir: string, name: string, trimExt: bool)
    requires Clean(cwd) && IsName(base) && IsName(dir) && IsName(name)
    requires !trimExt || |Split(name, '.')| <= 2
    ensures GetBuildPath(NewLayout(cwd, base, ""), Join([base, dir, "..", name], '/'), trimExt)
         == Join([base, "_build", name], '/')
  {
    NormalizeUpAndBack(base, dir, name);
    NormalizeClean([base, name]);
    GetBuildPathUntrimmed(cwd, base, name, trimExt);
  }
}
