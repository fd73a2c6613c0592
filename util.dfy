/** `last2ext`: the extension key under which a converter is registered, made of the last
    one or two `.`-separated pieces of a file's basename. */
module Util {

  import opened Wrappers
  import opened JsString
  import opened NodePath

  /** The pieces of `s` kept by `slice(-2)`: the last two, or all of them when fewer. */
  function LastTwo(s: seq<string>): seq<string>
  {
    if |s| < 2 then s else [s[|s| - 2], s[|s| - 1]]
  }

  /** `util.last2ext(filename)`; `None` stands for the `undefined` returned when the
      basename has no `.` at all. */
  function Last2Ext(filename: string): (r: Option<string>)
    ensures r.Some? ==> |r.value| > 0 && r.value[0] == '.'
  {
    var exts := Split(Basename(filename), '.')[1..];
    if |exts| == 0 then None else Some("." + Join(LastTwo(exts), '.'))
  }

  /** The key is undefined exactly when the basename holds no `.`. */
  lemma Last2ExtUndefined(filename: string)
    ensures Last2Ext(filename).None? <==> '.' !in Basename(filename)
  {
    var b := Basename(filename);
    SplitCount(b, '.');
    if '.' in b {
      CountPositive(b, '.');
    } else {
      CountZero(b, '.');
    }
  }

  /** With a single `.`, the key is that `.` and what follows it. */
  lemma Last2ExtOne(filename: string, stem: string, ext: string)
    requires Basename(filename) == stem + "." + ext
    requires '.' !in stem && '.' !in ext
    ensures Last2Ext(filename) == Some("." + ext)
  {
    assert stem + "." + ext == stem + ['.'] + ext;
    SplitAround(stem, ext, '.');
    SplitWithout(stem, '.');
    SplitWithout(ext, '.');
    assert Split(Basename(filename), '.')[1..] == [ext];
  }

  lemma SplitTwo(ext1: string, ext2: string)
    requires '.' !in ext1 && '.' !in ext2
    ensures Split(ext1 + ['.'] + ext2, '.') == [ext1, ext2]
  {
    SplitAround(ext1, ext2, '.');
    SplitWithout(ext1, '.');
    SplitWithout(ext2, '.');
  }

  lemma LastTwoOfSnoc(head: seq<string>, ext1: string, ext2: string)
    requires |head| >= 1
    ensures LastTwo((head + [ext1, ext2])[1..]) == [ext1, ext2]
  {
    var exts := (head + [ext1, ext2])[1..];
    assert exts[|exts| - 2] == ext1 && exts[|exts| - 1] == ext2;
  }

  /** With two or more, only the last two pieces count, whatever comes before them. */
  lemma Last2ExtMany(filename: string, front: string, ext1: string, ext2: string)
    requires Basename(filename) == front + "." + ext1 + "." + ext2
    requires '.' !in ext1 && '.' !in ext2
    ensures Last2Ext(filename) == Some("." + ext1 + "." + ext2)
  {
    var tail := ext1 + "." + ext2;
    SplitTwo(ext1, ext2);
    // Regroup the concatenations around the first `.` after `front`.
    Assoc(ext1, ".", ext2);
    Assoc(front + "." + ext1, ".", ext2);
    Assoc(front + ".", ext1, "." + ext2);
    assert Basename(filename) == front + ['.'] + tail;
    SplitAround(front, tail, '.');
    LastTwoOfSnoc(Split(front, '.'), ext1, ext2);
    assert Join([ext1, ext2], '.') == tail;
    Assoc("." + ext1, ".", ext2);
    Assoc(".", ext1, "." + ext2);
  }

  /** Only the basename is read: a directory holding dots adds nothing to the key. */
  lemma Last2ExtIgnoresDirectories(dir: string, name: string)
    requires '/' !in name && name != ""
    ensures Last2Ext(dir + "/" + name) == Last2Ext(name)
  {
    BasenameAfterSlash(dir, name);
    BasenameNoSlash(name);
  }

  /** The key holds one `.` in front of each kept piece, and the pieces hold none. */
  lemma KeyDots(kept: seq<string>)
    requires 1 <= |kept| <= 2 && forall i :: 0 <= i < |kept| ==> '.' !in kept[i]
    ensures Count("." + Join(kept, '.'), '.') == |kept|
  {
    var j := Join(kept, '.');
    CountAppend(".", j, '.');
    assert Count(".", '.') == 1;
    CountZero(kept[0], '.');
    if |kept| == 2 {
      assert kept[1..] == [kept[1]];
      assert j == kept[0] + ['.'] + kept[1];
      CountAppend(kept[0] + ['.'], kept[1], '.');
      CountAppend(kept[0], ['.'], '.');
      CountZero(kept[1], '.');
      assert Count(['.'], '.') == 1;
    }
  }

  /** A defined key starts with `.` and holds one `.` when the basename holds one, and two
      when it holds more. */
  lemma Last2ExtShape(filename: string)
    requires Last2Ext(filename).Some?
    ensures var key := Last2Ext(filename).value;
      var b := Basename(filename);
      key[0] == '.' && Count(key, '.') == (if Count(b, '.') < 2 then Count(b, '.') else 2)
  {
    var b := Basename(filename);
    var pieces := Split(b, '.');
    var exts := pieces[1..];
    var kept := LastTwo(exts);
    SplitPieces(b, '.');
    SplitCount(b, '.');
    assert forall i :: 0 <= i < |kept| ==> kept[i] in pieces;
    KeyDots(kept);
  }

  // ---------------------------------------------------------------------------------------
  // test/test.util.js: "returns undefined with none". The other three cases are Last2ExtOne
  // and Last2ExtMany for stem `hello` and extensions `css`, `css.styl` and `js.css.styl`.

  lemma Last2ExtNoneCase()
    ensures Last2Ext("hello") == None
  {
    BasenameNoSlash("hello");
    assert '.' !in "hello";
    Last2ExtUndefined("hello");
  }
}
