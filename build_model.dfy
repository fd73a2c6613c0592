/** `build()` as a function of an `Elem`'s state, stage by stage: the file list from `glob`,
    the filters, the component table, `buildFile` over every file, the sorted index, the
    production asset pack, and the files written at the end. */
module BuildModel {

  import opened Wrappers
  import opened JsString
  import opened JsArray
  import opened NodePath
  import opened BuildPath
  import opened FileSys
  import opened ElemModel

  /** The extensions the loader fetches on its own. */
  const Autoload: seq<string> := [".css", ".html", ".js"]

  /** `glob.sync(pattern)`: the paths it lists on the current disk, in its order. */
  type Glob = (string, Disk) -> seq<string>

  /** What stays fixed across builds: the layout, the mode, the `last_build.json` path,
      JSON, and the directory lister. */
  datatype Config = Config(lay: Layout, production: bool, lastBuildFilename: string, codec: Codec, glob: Glob)

  // ---------------------------------------------------------------------------------------
  // The first filter: no `/_` path, no blank path, no directory.

  /** `fname.match(/\/_/)`: a path below a `_` directory or naming a `_` file. */
  predicate Hidden(f: string)
  {
    Contains(f, "/_")
  }

  /** The first filter; `statSync` of a file that is not hidden may throw. */
  function Visible(cwd: seq<string>, disk: Disk, files: seq<string>): Result<seq<string>>
  {
    if files == [] then Ok([])
    else
      var kept :- Visible(cwd, disk, files[..|files| - 1]);
      var f := files[|files| - 1];
      if Hidden(f) || IsBlank(f) then Ok(kept)
      else
        var n :- Stat(disk, cwd, f);
        Ok(if n.Dir? then kept else kept + [f])
  }

  /** What the first filter asks of a path it keeps. */
  predicate Shown(cwd: seq<string>, disk: Disk, f: string)
  {
    !Hidden(f) && !IsBlank(f) && Stat(disk, cwd, f).Ok? && Stat(disk, cwd, f).value.File?
  }

  /** The filter throws exactly when a path it must stat cannot be stat'ed; otherwise it keeps
      exactly the shown files. */
  lemma {:induction false} VisibleKeeps(cwd: seq<string>, disk: Disk, files: seq<string>)
    ensures Visible(cwd, disk, files).Ok? <==>
      forall i :: 0 <= i < |files| && !Hidden(files[i]) && !IsBlank(files[i]) ==> Stat(disk, cwd, files[i]).Ok?
    ensures Visible(cwd, disk, files).Ok? ==>
      forall f :: f in Visible(cwd, disk, files).value <==> f in files && Shown(cwd, disk, f)
  {
    if files != [] {
      var front := files[..|files| - 1];
      var f := files[|files| - 1];
      VisibleKeeps(cwd, disk, front);
      assert files == front + [f];
      assert forall i :: 0 <= i < |front| ==> front[i] == files[i];
      if Visible(cwd, disk, files).Ok? {
        var kept := Visible(cwd, disk, front).value;
        assert Visible(cwd, disk, files).value == if Shown(cwd, disk, f) then kept + [f] else kept;
      }
    }
  }

  // ---------------------------------------------------------------------------------------
  // The second filter: `component.json` files, and the component table.

  predicate IsDescriptor(f: string)
  {
    EndsWith(f, "component.json")
  }

  predicate InComponents(f: string)
  {
    Contains(f, "components/")
  }

  /** The property name `modules[component.name]` sets. */
  function ModuleKey(name: Option<string>): string
  {
    match name
    case None => "undefined"
    case Some(n) => n
  }

  /** The entry a descriptor inside `components/` adds to the table, if it parses. */
  function Declared(lay: Layout, codec: Codec, disk: Disk, f: string): Option<(string, string)>
  {
    if IsDescriptor(f) && InComponents(f) then
      match ParseComponent(lay, codec, disk, f)
      case Ok(c) => Some((ModuleKey(c.name), c.main))
      case Err(_) => None
    else None
  }

  /** The second filter: descriptors never pass; one inside `components/` is parsed, which
      may throw, and sets its name's entry in the table. */
  function Components(lay: Layout, codec: Codec, disk: Disk, files: seq<string>): Result<(seq<string>, map<string, string>)>
  {
    if files == [] then Ok(([], map[]))
    else
      var acc :- Components(lay, codec, disk, files[..|files| - 1]);
      var f := files[|files| - 1];
      if !IsDescriptor(f) then Ok((acc.0 + [f], acc.1))
      else if !InComponents(f) then Ok(acc)
      else
        var c :- ParseComponent(lay, codec, disk, f);
        Ok((acc.0, acc.1[ModuleKey(c.name) := c.main]))
  }

  /** Exactly the files that are not descriptors pass, and the filter throws exactly when a
      descriptor inside `components/` does not parse. */
  lemma {:induction false} ComponentsKeeps(lay: Layout, codec: Codec, disk: Disk, files: seq<string>)
    ensures Components(lay, codec, disk, files).Ok? <==>
      forall i :: 0 <= i < |files| && IsDescriptor(files[i]) && InComponents(files[i]) ==>
        ParseComponent(lay, codec, disk, files[i]).Ok?
    ensures Components(lay, codec, disk, files).Ok? ==>
      forall f :: f in Components(lay, codec, disk, files).value.0 <==> f in files && !IsDescriptor(f)
  {
    if files != [] {
      var front := files[..|files| - 1];
      var f := files[|files| - 1];
      ComponentsKeeps(lay, codec, disk, front);
      assert files == front + [f];
      assert forall i :: 0 <= i < |front| ==> front[i] == files[i];
      if Components(lay, codec, disk, files).Ok? {
        var kept := Components(lay, codec, disk, front).value.0;
        assert Components(lay, codec, disk, files).value.0 == if IsDescriptor(f) then kept else kept + [f];
      }
    }
  }

  /** `files[i]` declares a name that no later descriptor declares again. */
  predicate LastDeclaring(lay: Layout, codec: Codec, disk: Disk, files: seq<string>, i: nat)
    requires i < |files|
  {
    Declared(lay, codec, disk, files[i]).Some? &&
    forall j :: i < j < |files| && Declared(lay, codec, disk, files[j]).Some? ==>
      Declared(lay, codec, disk, files[j]).value.0 != Declared(lay, codec, disk, files[i]).value.0
  }

  /** One step of the table: a declaring descriptor sets its entry, any other file leaves
      the table as it was. */
  lemma ComponentsStep(lay: Layout, codec: Codec, disk: Disk, files: seq<string>)
    requires files != [] && Components(lay, codec, disk, files).Ok?
    ensures var front := files[..|files| - 1];
      var d := Declared(lay, codec, disk, files[|files| - 1]);
      Components(lay, codec, disk, front).Ok? &&
      Components(lay, codec, disk, files).value.1 ==
        (if d.Some? then Components(lay, codec, disk, front).value.1[d.value.0 := d.value.1]
         else Components(lay, codec, disk, front).value.1)
  {
  }

  /** Every table entry comes from a descriptor inside `components/`. */
  lemma {:induction false} ComponentsDeclared(lay: Layout, codec: Codec, disk: Disk, files: seq<string>)
    requires Components(lay, codec, disk, files).Ok?
    ensures var m := Components(lay, codec, disk, files).value.1;
      forall k :: k in m ==> exists i :: 0 <= i < |files| && Declared(lay, codec, disk, files[i]) == Some((k, m[k]))
  {
    if files != [] {
      var front := files[..|files| - 1];
      ComponentsStep(lay, codec, disk, files);
      ComponentsDeclared(lay, codec, disk, front);
      var m := Components(lay, codec, disk, files).value.1;
      var m0 := Components(lay, codec, disk, front).value.1;
      var d := Declared(lay, codec, disk, files[|files| - 1]);
      forall k | k in m
        ensures exists i :: 0 <= i < |files| && Declared(lay, codec, disk, files[i]) == Some((k, m[k]))
      {
        if d.Some? && k == d.value.0 {
          assert Declared(lay, codec, disk, files[|files| - 1]) == Some((k, m[k]));
        } else {
          var i :| 0 <= i < |front| && Declared(lay, codec, disk, front[i]) == Some((k, m0[k]));
          assert files[i] == front[i];
        }
      }
    }
  }

  /** The last descriptor declaring a name decides its entry. */
  lemma {:induction false} ComponentsLastWins(lay: Layout, codec: Codec, disk: Disk, files: seq<string>)
    requires Components(lay, codec, disk, files).Ok?
    ensures var m := Components(lay, codec, disk, files).value.1;
      forall i :: 0 <= i < |files| && LastDeclaring(lay, codec, disk, files, i) ==>
        var e := Declared(lay, codec, disk, files[i]).value; e.0 in m && m[e.0] == e.1
  {
    if files != [] {
      var front := files[..|files| - 1];
      ComponentsStep(lay, codec, disk, files);
      ComponentsLastWins(lay, codec, disk, front);
      var m := Components(lay, codec, disk, files).value.1;
      var m0 := Components(lay, codec, disk, front).value.1;
      var d := Declared(lay, codec, disk, files[|files| - 1]);
      forall i | 0 <= i < |files| && LastDeclaring(lay, codec, disk, files, i)
        ensures var e := Declared(lay, codec, disk, files[i]).value; e.0 in m && m[e.0] == e.1
      {
        var e := Declared(lay, codec, disk, files[i]).value;
        if i < |front| {
          LastDeclaringFront(lay, codec, disk, files, i);
          assert e.0 in m0 && m0[e.0] == e.1;
          if d.Some? {
            assert m == m0[d.value.0 := d.value.1] && d.value.0 != e.0;
          } else {
            assert m == m0;
          }
        } else {
          assert d == Some(e) && m == m0[e.0 := e.1];
        }
      }
    }
  }

  /** Dropping a later file keeps a name's last declaration the last one. */
  lemma LastDeclaringFront(lay: Layout, codec: Codec, disk: Disk, files: seq<string>, i: nat)
    requires i + 1 < |files| && LastDeclaring(lay, codec, disk, files, i)
    ensures files[i] == files[..|files| - 1][i]
    ensures LastDeclaring(lay, codec, disk, files[..|files| - 1], i)
    ensures var d := Declared(lay, codec, disk, files[|files| - 1]);
      d.Some? ==> d.value.0 != Declared(lay, codec, disk, files[i]).value.0
  {
    var front := files[..|files| - 1];
    forall j | i < j < |front| ensures files[j] == front[j] { }
  }

  /** Once the filter throws on a prefix, it throws the same on the whole list. */
  lemma {:induction false} ComponentsFails(lay: Layout, codec: Codec, disk: Disk, files: seq<string>, i: nat)
    requires i <= |files| && Components(lay, codec, disk, files[..i]).Err?
    ensures Components(lay, codec, disk, files) == Components(lay, codec, disk, files[..i])
  {
    if i < |files| {
      var front := files[..|files| - 1];
      assert front[..i] == files[..i];
      ComponentsFails(lay, codec, disk, front, i);
    } else {
      assert files[..i] == files;
    }
  }

  // ---------------------------------------------------------------------------------------
  // `files.map(buildFile)`.

  /** `buildFile` over the list in order, each call seeing the state the previous one left;
      the first throw ends the build. */
  function BuildAll(lay: Layout, now: string, converters: map<string, Converter>, st: State, files: seq<string>): (Result<seq<Built>>, State)
  {
    if files == [] then (Ok([]), st)
    else
      var acc := BuildAll(lay, now, converters, st, files[..|files| - 1]);
      match acc.0
      case Err(e) => (Err(e), acc.1)
      case Ok(built) =>
        var b := BuildFile(lay, now, converters, acc.1, files[|files| - 1]);
        match b.0
        case Err(e) => (Err(e), b.1)
        case Ok(x) => (Ok(built + [x]), b.1)
  }

  /** One result per file, and no call changes `cleaned` or `index`. */
  lemma {:induction false} BuildAllShape(lay: Layout, now: string, converters: map<string, Converter>, st: State, files: seq<string>)
    ensures var res := BuildAll(lay, now, converters, st, files);
      res.1.cleaned == st.cleaned && res.1.index == st.index &&
      (res.0.Ok? ==> |res.0.value| == |files|)
  {
    if files != [] {
      var acc := BuildAll(lay, now, converters, st, files[..|files| - 1]);
      BuildAllShape(lay, now, converters, st, files[..|files| - 1]);
      BuildFileFrame(lay, now, converters, acc.1, files[|files| - 1]);
    }
  }

  /** One more file: its `buildFile` runs on the state the earlier ones left. */
  lemma BuildAllStep(lay: Layout, now: string, converters: map<string, Converter>, st: State, files: seq<string>,
                     i: nat, built: seq<Built>, s: State)
    requires i < |files| && BuildAll(lay, now, converters, st, files[..i]) == (Ok(built), s)
    ensures var b := BuildFile(lay, now, converters, s, files[i]);
      BuildAll(lay, now, converters, st, files[..i + 1])
        == (if b.0.Ok? then (Ok(built + [b.0.value]), b.1) else (Err(b.0.error), b.1))
  {
    assert files[..i + 1][..i] == files[..i];
  }

  /** Once a call throws, the rest of the list is not built. */
  lemma {:induction false} BuildAllFails(lay: Layout, now: string, converters: map<string, Converter>, st: State, files: seq<string>, i: nat)
    requires i <= |files| && BuildAll(lay, now, converters, st, files[..i]).0.Err?
    ensures BuildAll(lay, now, converters, st, files) == BuildAll(lay, now, converters, st, files[..i])
  {
    if i < |files| {
      var front := files[..|files| - 1];
      assert front[..i] == files[..i];
      BuildAllFails(lay, now, converters, st, front, i);
    } else {
      assert files[..i] == files;
    }
  }

  // ---------------------------------------------------------------------------------------
  // The index's file list.

  /** `autoload.indexOf(path.extname(fname)) != -1`; a directory's `false` has no extension. */
  function Autoloaded(built: seq<Built>): seq<string>
  {
    if built == [] then []
    else
      var b := built[|built| - 1];
      Autoloaded(built[..|built| - 1]) + (if b.Built? && Extname(b.path) in Autoload then [b.path] else [])
  }

  /** `files.filter(fname => fname)`. */
  function NonEmpty(files: seq<string>): seq<string>
  {
    if files == [] then []
    else
      var f := files[|files| - 1];
      NonEmpty(files[..|files| - 1]) + (if f != "" then [f] else [])
  }

  /** `files.map(fname => path.relative(base, fname))`. */
  function MapRelative(cwd: seq<string>, base: string, files: seq<string>): (r: seq<string>)
    ensures |r| == |files|
  {
    if files == [] then []
    else MapRelative(cwd, base, files[..|files| - 1]) + [Relative(cwd, base, files[|files| - 1])]
  }

  /** The outputs the index lists, before they are made relative: extension filter, empties
      removed, repeats removed. */
  function Served(built: seq<Built>): seq<string>
  {
    Dedupe(NonEmpty(Autoloaded(built)))
  }

  /** `index.files` as the non-production build leaves it. */
  function IndexFiles(lay: Layout, built: seq<Built>): seq<string>
  {
    SortLex(MapRelative(lay.cwd, lay.buildDir, Served(built)))
  }

  lemma {:induction false} AutoloadedKeeps(built: seq<Built>)
    ensures forall p :: p in Autoloaded(built) <==> Built(p) in built && Extname(p) in Autoload
  {
    if built != [] {
      var front := built[..|built| - 1];
      AutoloadedKeeps(front);
      assert built == front + [built[|built| - 1]];
    }
  }

  lemma {:induction false} NonEmptyKeeps(files: seq<string>)
    ensures forall f :: f in NonEmpty(files) <==> f in files && f != ""
  {
    if files != [] {
      var front := files[..|files| - 1];
      NonEmptyKeeps(front);
      assert files == front + [files[|files| - 1]];
    }
  }

  lemma ExtnameEmpty()
    ensures Extname("") == ""
  {
    assert StripTrailingSlashes("") == "";
    assert Split("", '/') == [""];
  }

  lemma {:induction false} MapRelativeAt(cwd: seq<string>, base: string, files: seq<string>)
    ensures forall i :: 0 <= i < |files| ==> MapRelative(cwd, base, files)[i] == Relative(cwd, base, files[i])
  {
    if files != [] {
      MapRelativeAt(cwd, base, files[..|files| - 1]);
    }
  }

  /** The index lists each built output with an autoload extension once; a path without a
      name, or a skipped directory, never gets in. */
  lemma ServedFiles(built: seq<Built>)
    ensures NoDuplicates(Served(built))
    ensures forall p :: p in Served(built) <==> Built(p) in built && Extname(p) in Autoload
  {
    AutoloadedKeeps(built);
    NonEmptyKeeps(Autoloaded(built));
    ExtnameEmpty();
  }

  /** `index.files` is sorted, and it holds, once each, the build directory's relative path
      to each served output. */
  lemma IndexFilesSorted(lay: Layout, built: seq<Built>)
    ensures var r := IndexFiles(lay, built);
      Sorted(r) && multiset(r) == multiset(MapRelative(lay.cwd, lay.buildDir, Served(built)))
    ensures forall f :: f in IndexFiles(lay, built) <==>
      exists i :: 0 <= i < |Served(built)| && f == Relative(lay.cwd, lay.buildDir, Served(built)[i])
  {
    var served := Served(built);
    var rel := MapRelative(lay.cwd, lay.buildDir, served);
    MapRelativeAt(lay.cwd, lay.buildDir, served);
    SortLexMembers(rel);
    forall f | f in rel ensures exists i :: 0 <= i < |served| && f == Relative(lay.cwd, lay.buildDir, served[i]) {
      var i :| 0 <= i < |rel| && rel[i] == f;
    }
  }

  // ---------------------------------------------------------------------------------------
  // Production: the asset pack.

  /** The paths the asset step lists, with directories dropped; a `statSync` may throw. */
  function NonDirs(cwd: seq<string>, disk: Disk, files: seq<string>): Result<seq<string>>
  {
    if files == [] then Ok([])
    else
      var kept :- NonDirs(cwd, disk, files[..|files| - 1]);
      var n :- Stat(disk, cwd, files[|files| - 1]);
      Ok(if n.Dir? then kept else kept + [files[|files| - 1]])
  }

  /** `files.filter(fname => listed.indexOf(fname) !== -1)`. */
  function InIndex(files: seq<string>, listed: seq<string>): seq<string>
  {
    if files == [] then []
    else
      var f := files[|files| - 1];
      InIndex(files[..|files| - 1], listed) + (if f in listed then [f] else [])
  }

  /** `files.forEach(fname => packages[fname] = rel)`. */
  function Packages(packages: map<string, string>, files: seq<string>, rel: string): map<string, string>
  {
    if files == [] then packages
    else Packages(packages, files[..|files| - 1], rel)[files[|files| - 1] := rel]
  }

  /** The built files, relative to the build directory, that the index lists: what goes into
      the pack. */
  function PackedFiles(cfg: Config, disk: Disk, listed: seq<string>): Result<seq<string>>
  {
    var found :- NonDirs(cfg.lay.cwd, disk, cfg.glob(cfg.lay.buildDir + "{/**,*}", disk));
    Ok(InIndex(MapRelative(cfg.lay.cwd, cfg.lay.buildDir, found), listed))
  }

  /** `assetfile`. */
  function AssetFile(lay: Layout): string
  {
    lay.buildDir + "/" + "assets.json"
  }

  /** The production branch: make the build directory, pack the listed files into
      `assets.json`, list it, and point every packed file at it. */
  function Package(cfg: Config, now: string, disk: Disk, idx: Index): (Result<Index>, Disk)
  {
    match MkdirP(disk, cfg.lay.cwd, cfg.lay.buildDir, now)
    case Err(e) => (Err(e), disk)
    case Ok(d1) =>
      match PackedFiles(cfg, d1, idx.files)
      case Err(e) => (Err(e), d1)
      case Ok(packed) =>
        match Pack(cfg.lay, cfg.codec, d1, packed)
        case Err(e) => (Err(e), d1)
        case Ok(json) =>
          match WriteFile(d1, cfg.lay.cwd, AssetFile(cfg.lay), json, now)
          case Err(e) => (Err(e), d1)
          case Ok(d2) =>
            var rel := Relative(cfg.lay.cwd, cfg.lay.buildDir, AssetFile(cfg.lay));
            (Ok(Index(idx.files + [rel], idx.modules, Packages(idx.packages, packed, rel))), d2)
  }

  lemma {:induction false} InIndexKeeps(files: seq<string>, listed: seq<string>)
    ensures forall f :: f in InIndex(files, listed) <==> f in files && f in listed
  {
    if files != [] {
      var front := files[..|files| - 1];
      InIndexKeeps(front, listed);
      assert files == front + [files[|files| - 1]];
    }
  }

  lemma {:induction false} PackagesPoint(packages: map<string, string>, files: seq<string>, rel: string)
    ensures var r := Packages(packages, files, rel);
      (forall f :: f in r <==> f in packages || f in files) &&
      (forall f :: f in files ==> r[f] == rel) &&
      (forall f :: f in packages && f !in files ==> r[f] == packages[f])
  {
    if files != [] {
      var front := files[..|files| - 1];
      PackagesPoint(packages, front, rel);
      assert files == front + [files[|files| - 1]];
    }
  }

  /** The pack's entry in the index is `assets.json`, whatever the build directory is. */
  lemma AssetFileRelative(lay: Layout)
    requires ValidLayout(lay)
    ensures Relative(lay.cwd, lay.buildDir, AssetFile(lay)) == "assets.json"
  {
    assert IsName("assets.json");
    ResolveChild(lay.cwd, lay.buildDir, "assets.json");
    RelativeBelow(lay.cwd, lay.buildDir, AssetFile(lay), ["assets.json"]);
  }

  /** After the production branch, `assets.json` is the last entry of the list, every packed
      file is one the index lists and points at `assets.json`, and the pack holds exactly the
      packed files, each with its contents. */
  lemma PackageIndex(cfg: Config, now: string, disk: Disk, idx: Index)
    requires ValidLayout(cfg.lay) && Package(cfg, now, disk, idx).0.Ok?
    ensures var d1 := MkdirP(disk, cfg.lay.cwd, cfg.lay.buildDir, now).value;
      var packed := PackedFiles(cfg, d1, idx.files).value;
      var res := Package(cfg, now, disk, idx);
      var out := res.0.value;
      out.files == idx.files + ["assets.json"] && out.modules == idx.modules &&
      (forall f :: f in out.packages <==> f in idx.packages || f in packed) &&
      (forall f :: f in packed ==> f in idx.files && out.packages[f] == "assets.json") &&
      PackMap(cfg.lay, d1, packed).Ok? &&
      ReadFile(res.1, cfg.lay.cwd, AssetFile(cfg.lay)) == Ok(cfg.codec.encodePack(PackMap(cfg.lay, d1, packed).value))
  {
    var d1 := MkdirP(disk, cfg.lay.cwd, cfg.lay.buildDir, now).value;
    var packed := PackedFiles(cfg, d1, idx.files).value;
    var json := Pack(cfg.lay, cfg.codec, d1, packed).value;
    AssetFileRelative(cfg.lay);
    PackagesPoint(idx.packages, packed, "assets.json");
    InIndexKeeps(MapRelative(cfg.lay.cwd, cfg.lay.buildDir,
      NonDirs(cfg.lay.cwd, d1, cfg.glob(cfg.lay.buildDir + "{/**,*}", d1)).value), idx.files);
    ReadAfterWrite(d1, cfg.lay.cwd, AssetFile(cfg.lay), json, now);
  }

  // ---------------------------------------------------------------------------------------
  // The end of a build, and the whole of it.

  /** The layout and the `last_build.json` path the constructor computes from it. */
  predicate ValidConfig(cfg: Config)
  {
    ValidLayout(cfg.lay) && cfg.lastBuildFilename == Normalize(cfg.lay.buildDir + "/" + "last_build.json")
  }

  /** The page `buildStaticSiteBootstrap` writes. */
  const BootstrapPage: string := "<!DOCTYPE HTML><script src=\"/loader.js\"></script>"

  function IndexJson(lay: Layout): string
  {
    Normalize(JoinPaths(lay.buildDir, "index.json"))
  }

  function IndexHtml(lay: Layout): string
  {
    JoinPaths(lay.buildDir, "index.html")
  }

  /** `this.index = index`, then `index.json`, `last_build.json` and `index.html` are
      written in that order; the first write that throws ends the build. */
  function Persist(cfg: Config, now: string, st: State, idx: Index): (Result<()>, State)
  {
    var st1 := st.(index := Some(idx));
    match WriteFile(st1.disk, cfg.lay.cwd, IndexJson(cfg.lay), cfg.codec.encodeIndex(idx), now)
    case Err(e) => (Err(e), st1)
    case Ok(d1) =>
      match WriteFile(d1, cfg.lay.cwd, cfg.lastBuildFilename, cfg.codec.encodeTable(st.lastBuild), now)
      case Err(e) => (Err(e), st1.(disk := d1))
      case Ok(d2) =>
        match WriteFile(d2, cfg.lay.cwd, IndexHtml(cfg.lay), cfg.codec.utf8(BootstrapPage), now)
        case Err(e) => (Err(e), st1.(disk := d2))
        case Ok(d3) => (Ok(()), st1.(disk := d3))
  }

  /** The globbed list, taken before the first production build wipes the build directory. */
  function Prepare(cfg: Config, st: State): (seq<string>, State)
  {
    var files := cfg.glob(cfg.lay.root + "/**", st.disk);
    if cfg.production && !st.cleaned then
      (files, st.(disk := RemoveTree(st.disk, cfg.lay.cwd, cfg.lay.buildDir), cleaned := true))
    else (files, st)
  }

  /** Both filters: the files `buildFile` gets, and the component table. */
  function Collect(cfg: Config, disk: Disk, files: seq<string>): Result<(seq<string>, map<string, string>)>
  {
    var visible :- Visible(cfg.lay.cwd, disk, files);
    Components(cfg.lay, cfg.codec, disk, visible)
  }

  /** Whether a production build finds an earlier build and does nothing. */
  predicate Reuses(cfg: Config, st: State)
  {
    cfg.production && Exists(st.disk, cfg.lay.cwd, cfg.lastBuildFilename)
  }

  /** `build()` up to `this.index = index`: the list, the filters, `buildFile` over every
      file, the index, and in production the asset pack. */
  function Stage(cfg: Config, now: string, converters: map<string, Converter>, st: State): (Result<Index>, State)
  {
    var prep := Prepare(cfg, st);
    match Collect(cfg, prep.1.disk, prep.0)
    case Err(e) => (Err(e), prep.1)
    case Ok(c) =>
      var b := BuildAll(cfg.lay, now, converters, prep.1, c.0);
      match b.0
      case Err(e) => (Err(e), b.1)
      case Ok(built) =>
        var idx := Index(IndexFiles(cfg.lay, built), c.1, map[]);
        if !cfg.production then (Ok(idx), b.1)
        else
          var p := Package(cfg, now, b.1.disk, idx);
          (p.0, b.1.(disk := p.1))
  }

  /** `build()`: what it returns, or throws, and the state it leaves either way. */
  function Build(cfg: Config, now: string, converters: map<string, Converter>, st: State): (Result<()>, State)
  {
    if Reuses(cfg, st) then (Ok(()), st)
    else
      var s := Stage(cfg, now, converters, st);
      match s.0
      case Err(e) => (Err(e), s.1)
      case Ok(idx) => Persist(cfg, now, s.1, idx)
  }

  /** A production build that finds `last_build.json` changes nothing. */
  lemma BuildReuses(cfg: Config, now: string, converters: map<string, Converter>, st: State)
    requires Reuses(cfg, st)
    ensures Build(cfg, now, converters, st) == (Ok(()), st)
  {
  }

  /** The files that reach `buildFile` are exactly the listed ones that are shown and are not
      descriptors: none below a `_` directory, no directory, no `component.json`. */
  lemma CollectKeeps(cfg: Config, disk: Disk, files: seq<string>)
    requires Collect(cfg, disk, files).Ok?
    ensures forall f :: f in Collect(cfg, disk, files).value.0 <==>
      f in files && Shown(cfg.lay.cwd, disk, f) && !IsDescriptor(f)
  {
    VisibleKeeps(cfg.lay.cwd, disk, files);
    ComponentsKeeps(cfg.lay, cfg.codec, disk, Visible(cfg.lay.cwd, disk, files).value);
  }

  /** The paths the last steps write resolve to distinct entries of the build directory. */
  lemma PersistPaths(lay: Layout)
    requires ValidLayout(lay)
    ensures var b := ResolveSegs(lay.cwd, lay.buildDir);
      ResolveSegs(lay.cwd, IndexJson(lay)) == b + ["index.json"] &&
      ResolveSegs(lay.cwd, Normalize(lay.buildDir + "/" + "last_build.json")) == b + ["last_build.json"] &&
      ResolveSegs(lay.cwd, IndexHtml(lay)) == b + ["index.html"]
  {
    NameIndexJson();
    ResolveJoinChild(lay.cwd, lay.buildDir, "index.json");
    NameLastBuild();
    ResolveJoinChild(lay.cwd, lay.buildDir, "last_build.json");
    NameIndexHtml();
    ResolveJoinChild(lay.cwd, lay.buildDir, "index.html");
  }

  lemma NameIndexJson() ensures IsName("index.json") { }
  lemma NameLastBuild() ensures IsName("last_build.json") { }
  lemma NameIndexHtml() ensures IsName("index.html") { }

  lemma SiblingsApart(b: seq<string>, x: string, y: string)
    requires x != y
    ensures !IsPrefix(b + [x], b + [y])
  {
    assert (b + [y])[|b|] == y;
  }

  /** The last steps set `index` before they write, and change nothing else but the disk,
      also when a write throws. */
  lemma PersistFrame(cfg: Config, now: string, st: State, idx: Index)
    ensures var res := Persist(cfg, now, st, idx); res.1 == st.(index := Some(idx), disk := res.1.disk)
  {
  }

  /** After the last steps, `index.json` and `index.html` hold what was written, and
      `last_build.json` loads back as the `lastBuild` of this build. */
  lemma PersistSaves(cfg: Config, now: string, st: State, idx: Index)
    requires ValidConfig(cfg)
    requires cfg.codec.parseTable(cfg.codec.encodeTable(st.lastBuild)) == Ok(st.lastBuild)
    requires Persist(cfg, now, st, idx).0.Ok?
    ensures var res := Persist(cfg, now, st, idx);
      ReadFile(res.1.disk, cfg.lay.cwd, IndexJson(cfg.lay)) == Ok(cfg.codec.encodeIndex(idx)) &&
      LoadTable(cfg.codec, res.1.disk, cfg.lay.cwd, cfg.lastBuildFilename) == Ok(st.lastBuild) &&
      ReadFile(res.1.disk, cfg.lay.cwd, IndexHtml(cfg.lay)) == Ok(cfg.codec.utf8(BootstrapPage))
  {
    var cwd := cfg.lay.cwd;
    var b := ResolveSegs(cwd, cfg.lay.buildDir);
    PersistPaths(cfg.lay);
    SiblingsApart(b, "last_build.json", "index.json");
    SiblingsApart(b, "index.html", "index.json");
    SiblingsApart(b, "index.html", "last_build.json");
    var d1 := WriteFile(st.disk, cwd, IndexJson(cfg.lay), cfg.codec.encodeIndex(idx), now).value;
    var d2 := WriteFile(d1, cwd, cfg.lastBuildFilename, cfg.codec.encodeTable(st.lastBuild), now).value;
    var page := cfg.codec.utf8(BootstrapPage);
    ReadAfterWrite(st.disk, cwd, IndexJson(cfg.lay), cfg.codec.encodeIndex(idx), now);
    WriteElsewhere(d1, cwd, cfg.lastBuildFilename, cfg.codec.encodeTable(st.lastBuild), now, IndexJson(cfg.lay));
    WriteElsewhere(d2, cwd, IndexHtml(cfg.lay), page, now, IndexJson(cfg.lay));
    LoadAfterPersist(cfg.codec, d1, cwd, cfg.lastBuildFilename, st.lastBuild, now);
    WriteElsewhere(d2, cwd, IndexHtml(cfg.lay), page, now, cfg.lastBuildFilename);
    ReadAfterWrite(d2, cwd, IndexHtml(cfg.lay), page, now);
  }

  /** Stepping through the stages changes `cleaned` only on the first production build, and
      leaves `index` alone. */
  lemma {:induction false} StageFrame(cfg: Config, now: string, converters: map<string, Converter>, st: State)
    ensures var s := Stage(cfg, now, converters, st);
      s.1.cleaned == (st.cleaned || cfg.production) && s.1.index == st.index
  {
    var prep := Prepare(cfg, st);
    if Collect(cfg, prep.1.disk, prep.0).Ok? {
      var c := Collect(cfg, prep.1.disk, prep.0).value;
      BuildAllShape(cfg.lay, now, converters, prep.1, c.0);
    }
  }

  /** The index the stages hand to the last steps: outside production the sorted list of
      served files and no packages; in production that list and then `assets.json`, with
      every package a listed file that points at `assets.json`. */
  lemma StageIndex(cfg: Config, now: string, converters: map<string, Converter>, st: State)
    requires ValidLayout(cfg.lay) && Stage(cfg, now, converters, st).0.Ok?
    ensures var idx := Stage(cfg, now, converters, st).0.value;
      |idx.files| >= 1 || !cfg.production
    ensures var idx := Stage(cfg, now, converters, st).0.value;
      var listed := if cfg.production then idx.files[..|idx.files| - 1] else idx.files;
      Sorted(listed) &&
      (cfg.production ==> idx.files[|idx.files| - 1] == "assets.json") &&
      (!cfg.production ==> idx.packages == map[]) &&
      (forall f :: f in idx.packages ==> f in listed && idx.packages[f] == "assets.json")
  {
    var prep := Prepare(cfg, st);
    var c := Collect(cfg, prep.1.disk, prep.0).value;
    var b := BuildAll(cfg.lay, now, converters, prep.1, c.0);
    var idx := Index(IndexFiles(cfg.lay, b.0.value), c.1, map[]);
    IndexFilesSorted(cfg.lay, b.0.value);
    if cfg.production {
      PackageIndex(cfg, now, b.1.disk, idx);
      var out := Stage(cfg, now, converters, st).0.value;
      assert out.files[..|out.files| - 1] == idx.files;
    }
  }

  /** A build that runs sets `cleaned` on the first production build and never clears it. */
  lemma BuildCleans(cfg: Config, now: string, converters: map<string, Converter>, st: State)
    ensures Build(cfg, now, converters, st).1.cleaned == (st.cleaned || (cfg.production && !Reuses(cfg, st)))
  {
    if !Reuses(cfg, st) {
      var s := Stage(cfg, now, converters, st);
      StageFrame(cfg, now, converters, st);
      if s.0.Ok? {
        PersistFrame(cfg, now, s.1, s.0.value);
      }
    }
  }

  /** After a build that runs to the end, `this.index` is the index written to
      `index.json`, ordered as StageIndex says, and `last_build.json` loads back as the
      `lastBuild` the build leaves. */
  lemma BuildPersists(cfg: Config, now: string, converters: map<string, Converter>, st: State)
    requires ValidConfig(cfg)
    requires forall t :: cfg.codec.parseTable(cfg.codec.encodeTable(t)) == Ok(t)
    requires !Reuses(cfg, st) && Build(cfg, now, converters, st).0.Ok?
    ensures var res := Build(cfg, now, converters, st);
      res.1.index == Some(Stage(cfg, now, converters, st).0.value) &&
      ReadFile(res.1.disk, cfg.lay.cwd, IndexJson(cfg.lay)) == Ok(cfg.codec.encodeIndex(res.1.index.value)) &&
      LoadTable(cfg.codec, res.1.disk, cfg.lay.cwd, cfg.lastBuildFilename) == Ok(res.1.lastBuild)
  {
    var s := Stage(cfg, now, converters, st);
    var t := s.1.lastBuild;
    assert cfg.codec.parseTable(cfg.codec.encodeTable(t)) == Ok(t);
    PersistFrame(cfg, now, s.1, s.0.value);
    PersistSaves(cfg, now, s.1, s.0.value);
  }
}
