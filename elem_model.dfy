/** The per-file operations of an `Elem` as functions of its state: the staleness cache,
    the converter registry, `buildFile`, `pack`, `parseComponent`, and reading back the
    persisted `lastBuild` table. The class in module Elem runs them step by step. */
module ElemModel {

  import opened Wrappers
  import opened JsString
  import opened NodePath
  import opened Util
  import opened BuildPath
  import opened FileSys

  /** A pre-processor registered under an extension key: it gets the source's bytes and path
      and returns the output's bytes, or the error it throws. */
  type Converter = (Bytes, string) -> Result<Bytes>

  /** The fields of a `component.json` the build reads; `None` is a missing field. */
  datatype Descriptor = Descriptor(name: Option<string>, main: Option<string>)

  /** What `parseComponent` returns: the package name and its main file, relative to root. */
  datatype Component = Component(name: Option<string>, main: string)

  /** `index.json`: the served files, the component table and the packed files' bundle. */
  datatype Index = Index(files: seq<string>, modules: map<string, string>, packages: map<string, string>)

  /** JSON as the build uses it: parsing and printing of the few shapes it reads and writes,
      and the UTF-8 encoding `writeFileSync` applies to a string. */
  datatype Codec = Codec(
    parseDescriptor: Bytes -> Result<Descriptor>,
    parseTable: Bytes -> Result<map<string, string>>,
    encodeTable: map<string, string> -> Bytes,
    encodePack: map<string, Bytes> -> Bytes,
    encodeIndex: Index -> Bytes,
    utf8: string -> Bytes)

  /** What `buildFile` returns: `false` for a directory, or the output path. */
  datatype Built = NotBuilt | Built(path: string)

  /** The mutable part of an `Elem` and the disk: `lastBuild` (source path to mtime),
      `builtFileMap` (output path to source path), `cleaned` and the last `index`. */
  datatype State = State(
    lastBuild: map<string, string>,
    builtFileMap: map<string, string>,
    cleaned: bool,
    index: Option<Index>,
    disk: Disk)

  // ---------------------------------------------------------------------------------------
  // isOutdated: compare and record.

  /** `isOutdated` once the mtime is known: outdated unless `mtime` is the one recorded,
      and `mtime` is recorded either way. */
  function RecordMtime(lastBuild: map<string, string>, file: string, mtime: string): (r: (bool, map<string, string>))
    ensures r.0 <==> !(file in lastBuild && lastBuild[file] == mtime)
    ensures file in r.1 && r.1[file] == mtime
    ensures forall k :: k != file ==> (k in r.1 <==> k in lastBuild)
    ensures forall k :: k != file && k in lastBuild ==> r.1[k] == lastBuild[k]
  {
    if file in lastBuild && lastBuild[file] == mtime then (false, lastBuild)
    else (true, lastBuild[file := mtime])
  }

  /** `isOutdated(file)`: the `statSync` that reads the mtime may throw. */
  function IsOutdated(cwd: seq<string>, disk: Disk, lastBuild: map<string, string>, file: string): Result<(bool, map<string, string>)>
  {
    match Stat(disk, cwd, file)
    case Err(e) => Err(e)
    case Ok(n) => Ok(RecordMtime(lastBuild, file, n.mtime))
  }

  /** Asking twice in a row: the second answer is "up to date", and the table stays. */
  lemma IsOutdatedTwice(cwd: seq<string>, disk: Disk, lastBuild: map<string, string>, file: string)
    requires IsOutdated(cwd, disk, lastBuild, file).Ok?
    ensures var lb := IsOutdated(cwd, disk, lastBuild, file).value.1;
      IsOutdated(cwd, disk, lb, file) == Ok((false, lb))
  {
  }

  // ---------------------------------------------------------------------------------------
  // The converter registry.

  /** `prep(exts, fn)`: the last registration under a key wins and no other key changes. */
  function Register(converters: map<string, Converter>, exts: string, fn: Converter): (r: map<string, Converter>)
    ensures exts in r && r[exts] == fn
    ensures forall k :: k != exts ==> (k in r <==> k in converters)
    ensures forall k :: k != exts && k in converters ==> r[k] == converters[k]
  {
    converters[exts := fn]
  }

  /** The key `converters[ext]` looks up: `util.last2ext`, with `undefined` read as the
      property name "undefined". */
  function ConverterKey(file: string): string
  {
    match Last2Ext(file)
    case None => "undefined"
    case Some(k) => k
  }

  /** The file `buildFile` works on: the recorded source when `file` is an output. */
  function Source(builtFileMap: map<string, string>, file: string): string
  {
    if file in builtFileMap && builtFileMap[file] != "" then builtFileMap[file] else file
  }

  /** `ext.split('.').length > 1`: whether the converter branch trims. */
  predicate TrimFor(key: string)
  {
    |Split(key, '.')| > 1
  }

  /** A real extension key starts with `.`, so the converter branch always trims. */
  lemma ConverterAlwaysTrims(file: string)
    requires Last2Ext(file).Some?
    ensures TrimFor(ConverterKey(file))
  {
    var key := ConverterKey(file);
    assert key[0] == '.';
    CountPositive(key, '.');
    SplitCount(key, '.');
  }

  // ---------------------------------------------------------------------------------------
  // buildFile.

  /** The disk steps of a rebuild: make the output's directory, read the source, transform
      its contents, write the output. The disk they leave, also when a step throws. */
  function Emit(cwd: seq<string>, now: string, conv: Converter, disk: Disk, src: string, fileo: string): (Result<()>, Disk)
  {
    match MkdirP(disk, cwd, Dirname(fileo), now)
    case Err(e) => (Err(e), disk)
    case Ok(d1) =>
      match ReadFile(d1, cwd, src)
      case Err(e) => (Err(e), d1)
      case Ok(data) =>
        match conv(data, src)
        case Err(e) => (Err(e), d1)
        case Ok(out) =>
          match WriteFile(d1, cwd, fileo, out, now)
          case Err(e) => (Err(e), d1)
          case Ok(d2) => (Ok(()), d2)
  }

  /** A rebuild of `src` at `fileo` with `conv`: the disk steps, then, when they all
      succeed, the `builtFileMap` entry. A recorded mtime stays even when a step throws. */
  function Convert(lay: Layout, now: string, conv: Converter, st: State, src: string, fileo: string): (Result<Built>, State)
  {
    var w := Emit(lay.cwd, now, conv, st.disk, src, fileo);
    if w.0.Err? then (Err(w.0.error), st.(disk := w.1))
    else (Ok(Built(fileo)), st.(disk := w.1, builtFileMap := st.builtFileMap[fileo := src]))
  }

  /** The converter branch: the trimmed build path, rebuilt only when the source is stale. */
  function ConvertIfStale(lay: Layout, now: string, conv: Converter, key: string, st: State, src: string): (Result<Built>, State)
  {
    var fileo := GetBuildPath(lay, src, TrimFor(key));
    match IsOutdated(lay.cwd, st.disk, st.lastBuild, src)
    case Err(e) => (Err(e), st)
    case Ok(r) =>
      if !r.0 then (Ok(Built(fileo)), st.(lastBuild := r.1))
      else Convert(lay, now, conv, st.(lastBuild := r.1), src, fileo)
  }

  /** What `cp` writes: the contents as read. */
  function Verbatim(data: Bytes, src: string): Result<Bytes>
  {
    Ok(data)
  }

  /** The passthrough branch: a verbatim copy at the untrimmed build path, however fresh. */
  function Copy(lay: Layout, now: string, st: State, src: string): (Result<Built>, State)
  {
    Convert(lay, now, Verbatim, st, src, GetBuildPath(lay, src, false))
  }

  /** `buildFile(filei)`: what it returns, and the state it leaves, also when it throws. */
  function BuildFile(lay: Layout, now: string, converters: map<string, Converter>, st: State, filei: string): (Result<Built>, State)
  {
    match Stat(st.disk, lay.cwd, filei)
    case Err(e) => (Err(e), st)
    case Ok(node) =>
      if node.Dir? then (Ok(NotBuilt), st)
      else
        var src := Source(st.builtFileMap, filei);
        var key := ConverterKey(src);
        if key !in converters then Copy(lay, now, st, src)
        else if Last2Ext(src).None? then (Err(TypeError), st)
        else ConvertIfStale(lay, now, converters[key], key, st, src)
  }

  /** A directory is skipped, and nothing changes. */
  lemma BuildFileDirectory(lay: Layout, now: string, converters: map<string, Converter>, st: State, filei: string)
    requires Stat(st.disk, lay.cwd, filei).Ok? && Stat(st.disk, lay.cwd, filei).value.Dir?
    ensures BuildFile(lay, now, converters, st, filei) == (Ok(NotBuilt), st)
  {
  }

  /** A path that cannot be stat'ed (the empty path among them) throws, and nothing changes. */
  lemma BuildFileMissing(lay: Layout, now: string, converters: map<string, Converter>, st: State, filei: string)
    requires Stat(st.disk, lay.cwd, filei).Err?
    ensures BuildFile(lay, now, converters, st, filei) == (Err(Stat(st.disk, lay.cwd, filei).error), st)
  {
  }

  /** A source up to date in `lastBuild` is not rebuilt: its trimmed build path comes back
      and nothing changes, not the disk, not `builtFileMap`. */
  lemma BuildFileUpToDate(lay: Layout, now: string, converters: map<string, Converter>, st: State, filei: string)
    requires Stat(st.disk, lay.cwd, filei).Ok? && Stat(st.disk, lay.cwd, filei).value.File?
    requires var src := Source(st.builtFileMap, filei);
      ConverterKey(src) in converters && Last2Ext(src).Some? &&
      Stat(st.disk, lay.cwd, src).Ok? &&
      src in st.lastBuild && st.lastBuild[src] == Stat(st.disk, lay.cwd, src).value.mtime
    ensures var src := Source(st.builtFileMap, filei);
      BuildFile(lay, now, converters, st, filei) == (Ok(Built(GetBuildPath(lay, src, true))), st)
  {
    ConverterAlwaysTrims(Source(st.builtFileMap, filei));
  }

  /** A stale source with a converter: its mtime is recorded; on success the converter's
      output is at the trimmed build path and `builtFileMap` maps that path to the source. */
  lemma BuildFileConverted(lay: Layout, now: string, converters: map<string, Converter>, st: State, filei: string)
    requires Stat(st.disk, lay.cwd, filei).Ok? && Stat(st.disk, lay.cwd, filei).value.File?
    requires var src := Source(st.builtFileMap, filei);
      ConverterKey(src) in converters && Last2Ext(src).Some? &&
      Stat(st.disk, lay.cwd, src).Ok? && Stat(st.disk, lay.cwd, src).value.File? &&
      !(src in st.lastBuild && st.lastBuild[src] == Stat(st.disk, lay.cwd, src).value.mtime)
    ensures var src := Source(st.builtFileMap, filei);
      var fileo := GetBuildPath(lay, src, true);
      var res := BuildFile(lay, now, converters, st, filei);
      res.1.lastBuild == st.lastBuild[src := Stat(st.disk, lay.cwd, src).value.mtime] &&
      (res.0.Ok? ==>
        res.0.value == Built(fileo) &&
        res.1.builtFileMap == st.builtFileMap[fileo := src] &&
        converters[ConverterKey(src)](ReadFile(st.disk, lay.cwd, src).value, src)
          == ReadFile(res.1.disk, lay.cwd, fileo)) &&
      (res.0.Err? ==> res.1.builtFileMap == st.builtFileMap)
  {
    var src := Source(st.builtFileMap, filei);
    var fileo := GetBuildPath(lay, src, true);
    ConverterAlwaysTrims(src);
    var key := ConverterKey(src);
    var st1 := st.(lastBuild := IsOutdated(lay.cwd, st.disk, st.lastBuild, src).value.1);
    assert BuildFile(lay, now, converters, st, filei) == Convert(lay, now, converters[key], st1, src, fileo);
    ConvertFrame(lay, now, converters[key], st1, src, fileo);
    if Convert(lay, now, converters[key], st1, src, fileo).0.Ok? {
      ConvertReads(lay, now, converters[key], st1, src, fileo);
    }
  }

  /** A stale source whose converter throws: the build throws that error, after the output
      directory is made, with the mtime recorded and `builtFileMap` as it was. */
  lemma BuildFileConverterThrows(lay: Layout, now: string, converters: map<string, Converter>, st: State, filei: string)
    requires Stat(st.disk, lay.cwd, filei).Ok? && Stat(st.disk, lay.cwd, filei).value.File?
    requires var src := Source(st.builtFileMap, filei);
      ConverterKey(src) in converters && Last2Ext(src).Some? &&
      Stat(st.disk, lay.cwd, src).Ok? && Stat(st.disk, lay.cwd, src).value.File? &&
      !(src in st.lastBuild && st.lastBuild[src] == Stat(st.disk, lay.cwd, src).value.mtime)
    requires var src := Source(st.builtFileMap, filei);
      MkdirP(st.disk, lay.cwd, Dirname(GetBuildPath(lay, src, true)), now).Ok? &&
      converters[ConverterKey(src)](ReadFile(st.disk, lay.cwd, src).value, src).Err?
    ensures var src := Source(st.builtFileMap, filei);
      var res := BuildFile(lay, now, converters, st, filei);
      res.0 == Err(converters[ConverterKey(src)](ReadFile(st.disk, lay.cwd, src).value, src).error) &&
      res.1.lastBuild == st.lastBuild[src := Stat(st.disk, lay.cwd, src).value.mtime] &&
      res.1.builtFileMap == st.builtFileMap
  {
    var src := Source(st.builtFileMap, filei);
    var fileo := GetBuildPath(lay, src, true);
    ConverterAlwaysTrims(src);
    var key := ConverterKey(src);
    var st1 := st.(lastBuild := IsOutdated(lay.cwd, st.disk, st.lastBuild, src).value.1);
    assert BuildFile(lay, now, converters, st, filei) == Convert(lay, now, converters[key], st1, src, fileo);
    EmitThrows(lay.cwd, now, converters[key], st.disk, src, fileo);
  }

  /** When the transform throws, the disk steps throw its error. */
  lemma EmitThrows(cwd: seq<string>, now: string, conv: Converter, disk: Disk, src: string, fileo: string)
    requires MkdirP(disk, cwd, Dirname(fileo), now).Ok? && ReadFile(disk, cwd, src).Ok?
    requires conv(ReadFile(disk, cwd, src).value, src).Err?
    ensures Emit(cwd, now, conv, disk, src, fileo).0 == Err(conv(ReadFile(disk, cwd, src).value, src).error)
  {
    MkdirPKeepsFiles(disk, cwd, Dirname(fileo), now, src);
  }

  /** The rebuild changes only the disk and, when it succeeds, the output's entry in
      `builtFileMap`. */
  lemma ConvertFrame(lay: Layout, now: string, conv: Converter, st: State, src: string, fileo: string)
    ensures var res := Convert(lay, now, conv, st, src, fileo);
      res.1.lastBuild == st.lastBuild && res.1.cleaned == st.cleaned && res.1.index == st.index &&
      (res.0.Ok? ==> res.0.value == Built(fileo) && res.1.builtFileMap == st.builtFileMap[fileo := src]) &&
      (res.0.Err? ==> res.1.builtFileMap == st.builtFileMap)
  {
  }

  /** What the disk steps leave at the output path, when they succeed, is the transform of
      the source's contents. */
  lemma EmitReads(cwd: seq<string>, now: string, conv: Converter, disk: Disk, src: string, fileo: string)
    requires Emit(cwd, now, conv, disk, src, fileo).0.Ok? && ReadFile(disk, cwd, src).Ok?
    ensures conv(ReadFile(disk, cwd, src).value, src) == ReadFile(Emit(cwd, now, conv, disk, src, fileo).1, cwd, fileo)
  {
    var d1 := MkdirP(disk, cwd, Dirname(fileo), now).value;
    MkdirPKeepsFiles(disk, cwd, Dirname(fileo), now, src);
    var data := ReadFile(d1, cwd, src).value;
    var out := conv(data, src).value;
    ReadAfterWrite(d1, cwd, fileo, out, now);
  }

  /** What a successful rebuild leaves at the output path is the converter's output for the
      source's contents. */
  lemma ConvertReads(lay: Layout, now: string, conv: Converter, st: State, src: string, fileo: string)
    requires Convert(lay, now, conv, st, src, fileo).0.Ok? && ReadFile(st.disk, lay.cwd, src).Ok?
    ensures conv(ReadFile(st.disk, lay.cwd, src).value, src)
      == ReadFile(Convert(lay, now, conv, st, src, fileo).1.disk, lay.cwd, fileo)
  {
    EmitReads(lay.cwd, now, conv, st.disk, src, fileo);
  }

  /** A source without a converter is copied byte for byte to its untrimmed build path, on
      every call; `lastBuild` is never consulted nor changed. */
  lemma BuildFileCopied(lay: Layout, now: string, converters: map<string, Converter>, st: State, filei: string)
    requires Stat(st.disk, lay.cwd, filei).Ok? && Stat(st.disk, lay.cwd, filei).value.File?
    requires ConverterKey(Source(st.builtFileMap, filei)) !in converters
    requires ReadFile(st.disk, lay.cwd, Source(st.builtFileMap, filei)).Ok?
    ensures var src := Source(st.builtFileMap, filei);
      var fileo := GetBuildPath(lay, src, false);
      var res := BuildFile(lay, now, converters, st, filei);
      res.1.lastBuild == st.lastBuild &&
      (res.0.Ok? ==>
        res.0.value == Built(fileo) &&
        res.1.builtFileMap == st.builtFileMap[fileo := src] &&
        ReadFile(res.1.disk, lay.cwd, fileo) == ReadFile(st.disk, lay.cwd, src)) &&
      (res.0.Err? ==> res.1.builtFileMap == st.builtFileMap)
  {
    var src := Source(st.builtFileMap, filei);
    var fileo := GetBuildPath(lay, src, false);
    assert BuildFile(lay, now, converters, st, filei) == Convert(lay, now, Verbatim, st, src, fileo);
    ConvertFrame(lay, now, Verbatim, st, src, fileo);
    if Convert(lay, now, Verbatim, st, src, fileo).0.Ok? {
      ConvertReads(lay, now, Verbatim, st, src, fileo);
    }
  }

  /** A converter registered under "undefined" is found for an extensionless source, and then
      `ext.split` throws a TypeError before anything changes. */
  lemma BuildFileUndefinedKey(lay: Layout, now: string, converters: map<string, Converter>, st: State, filei: string)
    requires Stat(st.disk, lay.cwd, filei).Ok? && Stat(st.disk, lay.cwd, filei).value.File?
    requires "undefined" in converters && '.' !in Basename(Source(st.builtFileMap, filei))
    ensures BuildFile(lay, now, converters, st, filei) == (Err(TypeError), st)
  {
    Last2ExtUndefined(Source(st.builtFileMap, filei));
  }

  /** Whatever happens, `buildFile` changes no `cleaned`, no `index`, and `lastBuild` at
      most at the source it works on; `builtFileMap` only changes when it succeeds. */
  lemma BuildFileFrame(lay: Layout, now: string, converters: map<string, Converter>, st: State, filei: string)
    ensures var res := BuildFile(lay, now, converters, st, filei);
      var src := Source(st.builtFileMap, filei);
      res.1.cleaned == st.cleaned && res.1.index == st.index &&
      (forall k :: k != src ==> (k in res.1.lastBuild <==> k in st.lastBuild)) &&
      (forall k :: k != src && k in st.lastBuild ==> res.1.lastBuild[k] == st.lastBuild[k]) &&
      (res.0.Err? ==> res.1.builtFileMap == st.builtFileMap) &&
      (res.0 == Ok(NotBuilt) ==> res.1 == st)
  {
    var src := Source(st.builtFileMap, filei);
    if Stat(st.disk, lay.cwd, filei).Ok? && Stat(st.disk, lay.cwd, filei).value.File? {
      var key := ConverterKey(src);
      if key !in converters {
        var fileo := GetBuildPath(lay, src, false);
        assert BuildFile(lay, now, converters, st, filei) == Convert(lay, now, Verbatim, st, src, fileo);
        ConvertFrame(lay, now, Verbatim, st, src, fileo);
      } else if Last2Ext(src).Some? {
        ConvertStaleFrame(lay, now, converters[key], key, st, src);
      }
    }
  }

  lemma ConvertStaleFrame(lay: Layout, now: string, conv: Converter, key: string, st: State, src: string)
    ensures var res := ConvertIfStale(lay, now, conv, key, st, src);
      res.1.cleaned == st.cleaned && res.1.index == st.index &&
      (forall k :: k != src ==> (k in res.1.lastBuild <==> k in st.lastBuild)) &&
      (forall k :: k != src && k in st.lastBuild ==> res.1.lastBuild[k] == st.lastBuild[k]) &&
      (res.0.Err? ==> res.1.builtFileMap == st.builtFileMap) &&
      res.0 != Ok(NotBuilt)
  {
    match IsOutdated(lay.cwd, st.disk, st.lastBuild, src)
    case Err(_) =>
    case Ok(o) =>
      if o.0 {
        ConvertFrame(lay, now, conv, st.(lastBuild := o.1), src, GetBuildPath(lay, src, TrimFor(key)));
      }
  }

  // ---------------------------------------------------------------------------------------
  // pack.

  /** The object `pack(files)` serialises: each file's contents, read below `buildDir`. */
  function PackMap(lay: Layout, disk: Disk, files: seq<string>): Result<map<string, Bytes>>
  {
    if files == [] then Ok(map[])
    else
      match PackMap(lay, disk, files[..|files| - 1])
      case Err(e) => Err(e)
      case Ok(m) =>
        match ReadFile(disk, lay.cwd, JoinPaths(lay.buildDir, files[|files| - 1]))
        case Err(e) => Err(e)
        case Ok(data) => Ok(m[files[|files| - 1] := data])
  }

  /** `pack(files)`: the JSON of the packed object. */
  function Pack(lay: Layout, codec: Codec, disk: Disk, files: seq<string>): Result<Bytes>
  {
    var m :- PackMap(lay, disk, files);
    Ok(codec.encodePack(m))
  }

  /** Once a read fails on a prefix, packing fails the same on the whole list. */
  lemma {:induction false} PackMapFails(lay: Layout, disk: Disk, files: seq<string>, i: nat)
    requires i <= |files| && PackMap(lay, disk, files[..i]).Err?
    ensures PackMap(lay, disk, files) == PackMap(lay, disk, files[..i])
  {
    if i < |files| {
      var front := files[..|files| - 1];
      assert front[..i] == files[..i];
      PackMapFails(lay, disk, front, i);
    } else {
      assert files[..i] == files;
    }
  }

  /** The packed keys are exactly the files, each holding its contents; packing fails
      exactly when some file cannot be read. */
  lemma {:induction false} PackMapContents(lay: Layout, disk: Disk, files: seq<string>)
    ensures PackMap(lay, disk, files).Ok? <==>
      forall i :: 0 <= i < |files| ==> ReadFile(disk, lay.cwd, JoinPaths(lay.buildDir, files[i])).Ok?
    ensures PackMap(lay, disk, files).Ok? ==> forall f :: f in PackMap(lay, disk, files).value <==> f in files
    ensures PackMap(lay, disk, files).Ok? ==> var m := PackMap(lay, disk, files).value;
      forall f :: f in m ==> ReadFile(disk, lay.cwd, JoinPaths(lay.buildDir, f)) == Ok(m[f])
  {
    if files != [] {
      var front := files[..|files| - 1];
      var last := files[|files| - 1];
      PackMapContents(lay, disk, front);
      assert files == front + [last];
      assert forall i :: 0 <= i < |front| ==> front[i] == files[i];
      if PackMap(lay, disk, files).Ok? {
        var data := ReadFile(disk, lay.cwd, JoinPaths(lay.buildDir, last));
        assert PackMap(lay, disk, files).value == PackMap(lay, disk, front).value[last := data.value];
      }
    }
  }

  // ---------------------------------------------------------------------------------------
  // parseComponent.

  /** `json.main || 'index.js'`. */
  function MainOf(desc: Descriptor): string
  {
    match desc.main
    case Some(m) => if m == "" then "index.js" else m
    case None => "index.js"
  }

  /** `parseComponent(fname)`: reading or parsing may throw; `main` is resolved against the
      descriptor's directory, then made relative to `root`. */
  function ParseComponent(lay: Layout, codec: Codec, disk: Disk, fname: string): Result<Component>
  {
    var data :- ReadFile(disk, lay.cwd, fname);
    var desc :- codec.parseDescriptor(data);
    Ok(Component(desc.name, Relative(lay.cwd, lay.root, JoinPaths(Dirname(fname), MainOf(desc)))))
  }

  /** The recorded `main` leads, from `root`, to the main file next to the descriptor:
      `index.js` there when the descriptor names none. */
  lemma ParseComponentMain(lay: Layout, codec: Codec, disk: Disk, fname: string)
    requires ValidLayout(lay) && ParseComponent(lay, codec, disk, fname).Ok?
    ensures var desc := codec.parseDescriptor(ReadFile(disk, lay.cwd, fname).value).value;
      var c := ParseComponent(lay, codec, disk, fname).value;
      c.name == desc.name &&
      ResolveSegs(lay.cwd, JoinPaths(lay.root, c.main))
        == ResolveSegs(lay.cwd, JoinPaths(Dirname(fname), MainOf(desc))) &&
      (desc.main.None? || desc.main == Some("") ==> MainOf(desc) == "index.js")
  {
    var desc := codec.parseDescriptor(ReadFile(disk, lay.cwd, fname).value).value;
    RelativeRoundTrip(lay.cwd, lay.root, JoinPaths(Dirname(fname), MainOf(desc)));
  }

  // ---------------------------------------------------------------------------------------
  // Loading the persisted `lastBuild`.

  /** The constructor's load of `last_build.json`: a missing file is an empty table; any
      other failure, a bad parse included, throws. */
  function LoadTable(codec: Codec, disk: Disk, cwd: seq<string>, filename: string): (r: Result<map<string, string>>)
    ensures ReadFile(disk, cwd, filename) == Err(NoEntry) ==> r == Ok(map[])
    ensures ReadFile(disk, cwd, filename).Ok? ==> r == codec.parseTable(ReadFile(disk, cwd, filename).value)
    ensures ReadFile(disk, cwd, filename).Err? && ReadFile(disk, cwd, filename).error != NoEntry ==>
      r == Err(ReadFile(disk, cwd, filename).error)
  {
    match ReadFile(disk, cwd, filename)
    case Err(e) => if e == NoEntry then Ok(map[]) else Err(e)
    case Ok(data) => codec.parseTable(data)
  }

  /** A table written with the codec is loaded back as it was, when the codec parses what it
      prints. */
  lemma LoadAfterPersist(codec: Codec, disk: Disk, cwd: seq<string>, filename: string, table: map<string, string>, now: string)
    requires codec.parseTable(codec.encodeTable(table)) == Ok(table)
    requires WriteFile(disk, cwd, filename, codec.encodeTable(table), now).Ok?
    ensures LoadTable(codec, WriteFile(disk, cwd, filename, codec.encodeTable(table), now).value, cwd, filename) == Ok(table)
  {
    ReadAfterWrite(disk, cwd, filename, codec.encodeTable(table), now);
  }
}
