/** An `Elem` and the process it runs in, as objects updated in place. Every method is
    proved to leave the state the matching function of ElemModel or BuildModel computes, so
    the lemmas there hold of the objects too. */
module Elem {

  import opened Wrappers
  import opened NodePath
  import opened Util
  import opened BuildPath
  import opened FileSys
  import opened ElemModel
  import opened BuildModel

  /** What `lib/elem.js` shares with the rest of the process: `process.cwd()`, the disk, the
      clock that stamps writes, the module-level `builtFileMap`, and the converter table
      `require('./converters')` hands to every instance. */
  class Runtime {
    const cwd: seq<string>
    var disk: Disk
    var now: string
    var builtFileMap: map<string, string>
    var converters: map<string, Converter>

    constructor (cwd: seq<string>, disk: Disk, now: string, converters: map<string, Converter>)
      requires Clean(cwd)
      ensures this.cwd == cwd && this.disk == disk && this.now == now
      ensures builtFileMap == map[] && this.converters == converters
    {
      this.cwd := cwd;
      this.disk := disk;
      this.now := now;
      builtFileMap := map[];
      this.converters := converters;
    }
  }

  class Elem {
    const rt: Runtime
    const layout: Layout
    const production: bool
    const lastBuildFilename: string
    const codec: Codec
    const glob: Glob
    var lastBuild: map<string, string>
    var cleaned: bool
    var index: Option<Index>

    /** The settings `build` reads. */
    function Settings(): Config
    {
      Config(layout, production, lastBuildFilename, codec, glob)
    }

    predicate Valid()
    {
      ValidConfig(Settings()) && layout.cwd == rt.cwd
    }

    /** The state the model functions take and return. */
    function State(): State
      reads this, rt
    {
      ElemModel.State(lastBuild, rt.builtFileMap, cleaned, index, rt.disk)
    }

    constructor Of(rt: Runtime, layout: Layout, production: bool, codec: Codec, glob: Glob, lastBuild: map<string, string>)
      ensures this.rt == rt && this.layout == layout && this.production == production
      ensures this.codec == codec && this.glob == glob && this.lastBuild == lastBuild
      ensures lastBuildFilename == Normalize(layout.buildDir + "/" + "last_build.json")
      ensures !cleaned && index == None
    {
      this.rt := rt;
      this.layout := layout;
      this.production := production;
      lastBuildFilename := Normalize(layout.buildDir + "/" + "last_build.json");
      this.codec := codec;
      this.glob := glob;
      this.lastBuild := lastBuild;
      cleaned := false;
      index := None;
    }

    /** `new Elem(root, {buildDir, production})`: an empty `root` or `buildDir` is one not
        given. It throws when `last_build.json` is there but cannot be read or parsed. */
    static method New(rt: Runtime, root: string, buildDir: string, production: bool, codec: Codec, glob: Glob)
      returns (r: Result<Elem>)
      requires Clean(rt.cwd)
      ensures var lay := NewLayout(rt.cwd, root, buildDir);
        var table := LoadTable(codec, rt.disk, rt.cwd, Normalize(lay.buildDir + "/" + "last_build.json"));
        (r.Ok? <==> table.Ok?) &&
        (r.Err? ==> r.error == table.error) &&
        (r.Ok? ==>
          fresh(r.value) && r.value.Valid() && r.value.rt == rt && r.value.layout == lay &&
          r.value.production == production && r.value.codec == codec && r.value.glob == glob &&
          r.value.lastBuild == table.value && !r.value.cleaned && r.value.index == None)
    {
      var lay := NewLayout(rt.cwd, root, buildDir);
      var table :- LoadTable(codec, rt.disk, rt.cwd, Normalize(lay.buildDir + "/" + "last_build.json"));
      var e := new Elem.Of(rt, lay, production, codec, glob, table);
      return Ok(e);
    }

    /** `isOutdated(filei)`. */
    method IsOutdated(filei: string) returns (r: Result<bool>)
      modifies this`lastBuild
      ensures match ElemModel.IsOutdated(rt.cwd, rt.disk, old(lastBuild), filei)
        case Err(e) => r == Err(e) && lastBuild == old(lastBuild)
        case Ok(o) => r == Ok(o.0) && lastBuild == o.1
    {
      var stat := Stat(rt.disk, rt.cwd, filei);
      if stat.Err? {
        return Err(stat.error);
      }
      var mtime := stat.value.mtime;
      if filei in lastBuild && lastBuild[filei] == mtime {
        return Ok(false);
      }
      lastBuild := lastBuild[filei := mtime];
      return Ok(true);
    }

    /** `prep(exts, fn)`. */
    method Prep(exts: string, fn: Converter)
      modifies rt`converters
      ensures rt.converters == Register(old(rt.converters), exts, fn)
    {
      rt.converters := rt.converters[exts := fn];
    }

    /** `buildFile(filei)`. */
    method BuildFile(filei: string) returns (r: Result<Built>)
      requires Valid()
      modifies this`lastBuild, rt`disk, rt`builtFileMap
      ensures (r, State()) == ElemModel.BuildFile(layout, rt.now, rt.converters, old(State()), filei)
    {
      var stat := Stat(rt.disk, rt.cwd, filei);
      if stat.Err? {
        return Err(stat.error);
      }
      if stat.value.Dir? {
        return Ok(NotBuilt);
      }
      var src := Source(rt.builtFileMap, filei);
      var ext := Last2Ext(src);
      var key := ConverterKey(src);
      if key in rt.converters {
        if ext.None? {
          return Err(TypeError);
        }
        r := ConvertFile(rt.converters[key], key, src);
      } else {
        r := Rebuild(Verbatim, src, GetBuildPath(layout, src, false));
      }
    }

    /** The converter branch of `buildFile`. */
    method ConvertFile(conv: Converter, key: string, src: string) returns (r: Result<Built>)
      requires Valid()
      modifies this`lastBuild, rt`disk, rt`builtFileMap
      ensures (r, State()) == ConvertIfStale(layout, rt.now, conv, key, old(State()), src)
    {
      var fileo := GetBuildPath(layout, src, TrimFor(key));
      var outdated :- IsOutdated(src);
      if !outdated {
        return Ok(Built(fileo));
      }
      r := Rebuild(conv, src, fileo);
    }

    /** The rebuild of `src` at `fileo`: `mkdirp`, read, transform, write, and the
        `builtFileMap` entry. */
    method Rebuild(conv: Converter, src: string, fileo: string) returns (r: Result<Built>)
      requires Valid()
      modifies rt`disk, rt`builtFileMap
      ensures (r, State()) == Convert(layout, rt.now, conv, old(State()), src, fileo)
    {
      var d1 :- MkdirP(rt.disk, rt.cwd, Dirname(fileo), rt.now);
      rt.disk := d1;
      var data :- ReadFile(rt.disk, rt.cwd, src);
      var output :- conv(data, src);
      var d2 :- WriteFile(rt.disk, rt.cwd, fileo, output, rt.now);
      rt.disk := d2;
      rt.builtFileMap := rt.builtFileMap[fileo := src];
      return Ok(Built(fileo));
    }

    /** `pack(files)`: fills the result object file by file. */
    method Pack(files: seq<string>) returns (r: Result<Bytes>)
      requires Valid()
      ensures r == ElemModel.Pack(layout, codec, rt.disk, files)
    {
      var result: map<string, Bytes> := map[];
      for i := 0 to |files|
        invariant PackMap(layout, rt.disk, files[..i]) == Ok(result)
      {
        assert files[..i + 1][..i] == files[..i];
        var data := ReadFile(rt.disk, rt.cwd, JoinPaths(layout.buildDir, files[i]));
        if data.Err? {
          PackMapFails(layout, rt.disk, files, i + 1);
          return Err(data.error);
        }
        result := result[files[i] := data.value];
      }
      assert files[..|files|] == files;
      return Ok(codec.encodePack(result));
    }

    /** The component filter of `build`: descriptors are dropped, and those inside
        `components/` fill the module table. */
    method FilterComponents(files: seq<string>) returns (r: Result<(seq<string>, map<string, string>)>)
      requires Valid()
      ensures r == Components(layout, codec, rt.disk, files)
    {
      var kept: seq<string> := [];
      var modules: map<string, string> := map[];
      for i := 0 to |files|
        invariant Components(layout, codec, rt.disk, files[..i]) == Ok((kept, modules))
      {
        assert files[..i + 1][..i] == files[..i];
        var fname := files[i];
        if IsDescriptor(fname) {
          if InComponents(fname) {
            var component := ParseComponent(layout, codec, rt.disk, fname);
            if component.Err? {
              ComponentsFails(layout, codec, rt.disk, files, i + 1);
              return Err(component.error);
            }
            modules := modules[ModuleKey(component.value.name) := component.value.main];
          }
        } else {
          kept := kept + [fname];
        }
      }
      assert files[..|files|] == files;
      return Ok((kept, modules));
    }

    /** `files.map(fname => self.buildFile(fname))`. */
    method BuildFiles(files: seq<string>) returns (r: Result<seq<Built>>)
      requires Valid()
      modifies this`lastBuild, rt`disk, rt`builtFileMap
      ensures (r, State()) == BuildAll(layout, rt.now, rt.converters, old(State()), files)
    {
      var built: seq<Built> := [];
      for i := 0 to |files|
        invariant BuildAll(layout, rt.now, rt.converters, old(State()), files[..i]) == (Ok(built), State())
      {
        ghost var before := State();
        BuildAllStep(layout, rt.now, rt.converters, old(State()), files, i, built, before);
        var b := BuildFile(files[i]);
        if b.Err? {
          BuildAllFails(layout, rt.now, rt.converters, old(State()), files, i + 1);
          return Err(b.error);
        }
        built := built + [b.value];
      }
      assert files[..|files|] == files;
      return Ok(built);
    }

    /** The production branch of `build`: the asset pack, and `index.packages` filled file by
        file. */
    method PackAssets(idx: Index) returns (r: Result<Index>)
      requires Valid()
      modifies rt`disk
      ensures (r, rt.disk) == Package(Settings(), rt.now, old(rt.disk), idx)
    {
      var d1 :- MkdirP(rt.disk, rt.cwd, layout.buildDir, rt.now);
      rt.disk := d1;
      var files :- PackedFiles(Settings(), rt.disk, idx.files);
      var json :- Pack(files);
      var d2 :- WriteFile(rt.disk, rt.cwd, AssetFile(layout), json, rt.now);
      rt.disk := d2;
      var relassetfile := Relative(rt.cwd, layout.buildDir, AssetFile(layout));
      var packages := PointPackages(idx.packages, files, relassetfile);
      return Ok(Index(idx.files + [relassetfile], idx.modules, packages));
    }

    /** `files.forEach(fname => index.packages[fname] = relassetfile)`. */
    static method PointPackages(packages: map<string, string>, files: seq<string>, rel: string)
      returns (r: map<string, string>)
      ensures r == Packages(packages, files, rel)
    {
      r := packages;
      for i := 0 to |files|
        invariant r == Packages(packages, files[..i], rel)
      {
        assert files[..i + 1][..i] == files[..i];
        r := r[files[i] := rel];
      }
      assert files[..|files|] == files;
    }

    /** The end of `build`: `this.index`, then the three writes. */
    method WriteIndex(idx: Index) returns (r: Result<()>)
      requires Valid()
      modifies this`index, rt`disk
      ensures (r, State()) == Persist(Settings(), rt.now, old(State()), idx)
    {
      index := Some(idx);
      var d1 :- WriteFile(rt.disk, rt.cwd, IndexJson(layout), codec.encodeIndex(idx), rt.now);
      rt.disk := d1;
      var d2 :- WriteFile(rt.disk, rt.cwd, lastBuildFilename, codec.encodeTable(lastBuild), rt.now);
      rt.disk := d2;
      var d3 :- WriteFile(rt.disk, rt.cwd, IndexHtml(layout), codec.utf8(BootstrapPage), rt.now);
      rt.disk := d3;
      return Ok(());
    }

    /** `build()`. */
    method Build() returns (r: Result<()>)
      requires Valid()
      modifies this`lastBuild, this`cleaned, this`index, rt`disk, rt`builtFileMap
      ensures (r, State()) == BuildModel.Build(Settings(), rt.now, rt.converters, old(State()))
    {
      if production && Exists(rt.disk, rt.cwd, lastBuildFilename) {
        return Ok(());
      }
      var files := glob(layout.root + "/**", rt.disk);
      if production && !cleaned {
        rt.disk := RemoveTree(rt.disk, rt.cwd, layout.buildDir);
        cleaned := true;
      }
      var visible :- Visible(rt.cwd, rt.disk, files);
      var kept :- FilterComponents(visible);
      var built :- BuildFiles(kept.0);
      var idx := Index(IndexFiles(layout, built), kept.1, map[]);
      if production {
        idx :- PackAssets(idx);
      }
      r := WriteIndex(idx);
    }
  }
}
