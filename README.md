# elem: the incremental build, in Dafny

`elem` builds a front-end source tree (`root`) into a build directory (`buildDir`, by default
`root/_build`). It lists the tree and drops private (`/_`) and blank paths, directories and
`component.json` descriptors. The descriptors under `components/` fill a module table. Each
remaining file goes through `buildFile`:

- A file with a registered converter (keyed by `util.last2ext`) is rebuilt only when its mtime
  differs from the one recorded in `lastBuild`. The output goes to its trimmed build path.
- Any other file is copied byte for byte to its untrimmed build path, on every build.

The outputs the loader fetches (`.css`, `.html`, `.js`) form a sorted `index.files`. In
production, those files are also packed into `assets.json`. Finally the build writes
`index.json`, `last_build.json` and a bootstrap `index.html`.

The model has these modules:

- `JsString`, `JsArray`, `NodePath`: the string, array and POSIX `path` operations the code
  relies on. Paths are strings, and they resolve to lists of names below `/`.
- `FileSys`: the disk, as a map from resolved path to a directory or a file (bytes and an mtime
  string). It has `statSync`, `readFileSync`, `writeFileSync`, `mkdirp.sync` and `rimraf.sync`.
- `Util`: `last2ext`.
- `BuildPath`: `getBuildPath` and the constructor's defaults.
- `ElemModel`: `isOutdated`, `prep`, `buildFile`, `pack`, `parseComponent` and the load of
  `last_build.json`, as functions of the state.
- `BuildModel`: `build()`, stage by stage, as a function of the state.
- `Elem`: the objects.
  - `Runtime` holds the process-wide parts: working directory, disk, clock, the module-level
    `builtFileMap` and the shared converter table.
  - `Elem` holds the per-instance fields.

  Each method is proved to leave exactly the state its model function computes, so the lemmas
  about those functions hold of the objects.

Converters are arbitrary functions from bytes and path to bytes or an error. JSON (parsing
descriptors and the table, printing the pack, the index and the table) and UTF-8 encoding are
the functions of a `Codec` value. `glob.sync` is a function of the pattern and the disk.

## Model

| member | source | states |
|---|---|---|
| Util.Last2Ext | lib/util.js:4-9 | a defined key is non-empty and starts with `.` |
| Util.Last2ExtUndefined | lib/util.js:5-7 | the key is `undefined` exactly when the basename holds no `.` |
| Util.Last2ExtOne | lib/util.js:8 | a basename `stem.ext` gives the key `.ext` |
| Util.Last2ExtMany | lib/util.js:8 | a basename with two or more extensions gives `.` and the last two pieces, whatever comes before them |
| Util.Last2ExtIgnoresDirectories | lib/util.js:5 | dots in the directory part never change the key |
| Util.Last2ExtShape | lib/util.js:6-8 | a defined key starts with `.` and holds as many dots as the basename, capped at two |
| Util.Last2ExtNoneCase | test/test.util.js:6-9 | `hello` has no key |
| BuildPath.NewLayout | lib/elem.js:37-38 | `root` defaults to `.`, and `buildDir` to `path.join(root, '_build')` |
| BuildPath.DefaultBuildDir | lib/elem.js:38 | with the default root, the default build directory is `_build` |
| BuildPath.TrimmedSourceDropsLastExtension | lib/elem.js:256-260 | when asked to trim and the basename has two dots or more, the normalised path minus the last `.`-piece: that piece holds no `.` and no `/`; otherwise the normalised path, untouched |
| BuildPath.TrimmedExtension | lib/elem.js:258-259 | `name.ext` with a dotted `name` trims to `name` |
| BuildPath.GetBuildPathMirrors | lib/elem.js:262-264 | a source that resolves to `rest` below `root` gets a build path that resolves to the same `rest` below `buildDir` |
| BuildPath.GetBuildPathRelative | lib/elem.js:262-264 | the build path seen from `buildDir` equals the (trimmed) source seen from `root` |
| BuildPath.GetBuildPathClean | lib/elem.js:253-265 | for paths of plain names: swaps the `root` prefix for the `buildDir` prefix and trims only the last name |
| BuildPath.GetBuildPathWithBase | test/test.elem.js:14-30 | `base/body.html.jade`, trimmed, gives `base/_build/body.html` |
| BuildPath.GetBuildPathWithoutBase | test/test.elem.js:20-24 | with no root, `body.html.jade` gives `_build/body.html` |
| BuildPath.GetBuildPathUntrimmed | test/test.elem.js:32-42 | a name with at most one dot, or any name when not trimming, is only re-rooted |
| BuildPath.GetBuildPathDottedDirectory | test/test.elem.js:44-48 | a dot in a directory is never taken for an extension |
| BuildPath.GetBuildPathNormalizes | test/test.elem.js:50-54 | `base/widget/../body.html` gives `base/_build/body.html` |
| NodePath.ResolveNormalize | lib/elem.js:256 | `path.normalize` never changes where a path resolves to |
| NodePath.RelativeBelow | lib/elem.js:262 | when `to` resolves to `from`'s path plus `rest`, `path.relative(from, to)` is `rest` joined with `/` |
| NodePath.RelativeRoundTrip | lib/elem.js:364-365 | `path.join(from, path.relative(from, to))` resolves to `to` |
| FileSys.ReadAfterWrite | lib/elem.js:320 | what `writeFileSync` wrote is read back, stamped with the write's time |
| FileSys.WriteElsewhere | lib/elem.js:519-525 | a write leaves `statSync` and `readFileSync` of every path outside the written one as they were |
| FileSys.MkdirPKeepsFiles | lib/elem.js:315 | `mkdirp` leaves every readable file as it was |
| FileSys.RemoveTreeRemoves | lib/elem.js:391 | after `rimraf`, nothing below the removed directory exists |
| FileSys.RemoveTreeKeeps | lib/elem.js:391 | `rimraf` keeps every path outside the removed tree as it was |
| ElemModel.RecordMtime | lib/elem.js:215-226 | outdated exactly when the recorded mtime differs from the current one; the current mtime is recorded, and every other key keeps its entry |
| ElemModel.IsOutdatedTwice | lib/elem.js:217-225 | asking again at once answers "up to date" and changes nothing |
| ElemModel.Register | lib/elem.js:236-238 | `prep` sets its key to the function and leaves every other key as it was |
| ElemModel.ConverterAlwaysTrims | lib/elem.js:304-305 | a defined key starts with `.`, so the converter branch always asks to trim |
| ElemModel.BuildFileDirectory | lib/elem.js:290-293 | a directory gives `false` and changes nothing |
| ElemModel.BuildFileMissing | lib/elem.js:290 | a path that cannot be stat'ed (the empty one among them) throws that error and changes nothing |
| ElemModel.BuildFileUpToDate | lib/elem.js:304-310 | a converted source that is up to date gives its trimmed build path and changes nothing, neither disk nor `builtFileMap` |
| ElemModel.BuildFileConverted | lib/elem.js:304-330 | a stale converted source has its mtime recorded; on success the converter's output of the source's bytes is at the trimmed path and `builtFileMap` maps that path to the source; on failure `builtFileMap` is unchanged |
| ElemModel.BuildFileConverterThrows | lib/elem.js:312-326 | a converter that throws makes `buildFile` throw the same error, with the mtime recorded and `builtFileMap` unchanged |
| ElemModel.EmitReads | lib/elem.js:314-320 | after mkdirp, read, convert and write, the output path holds the converter's output for the source's contents |
| ElemModel.EmitThrows | lib/elem.js:316-318 | when the converter throws, the disk steps throw its error |
| ElemModel.ConvertFrame | lib/elem.js:312-329 | a rebuild changes only the disk and, when it succeeds, the output's `builtFileMap` entry |
| ElemModel.ConvertReads | lib/elem.js:312-320 | a successful rebuild leaves the converter's output at the output path |
| ElemModel.BuildFileCopied | lib/elem.js:333-353 | without a converter: a byte-identical copy at the untrimmed path and the `builtFileMap` entry, on every call, and `lastBuild` untouched |
| ElemModel.BuildFileUndefinedKey | lib/elem.js:300-305 | an extensionless source that finds a converter under "undefined" throws a TypeError before changing anything |
| ElemModel.BuildFileFrame | lib/elem.js:287-354 | `buildFile` never changes `cleaned` or `index`, changes `lastBuild` at most at its source, changes `builtFileMap` only on success, and changes nothing when it gives `false` |
| ElemModel.ConvertStaleFrame | lib/elem.js:304-330 | the converter branch changes `lastBuild` at most at its source and never gives `false` |
| ElemModel.PackMapFails | lib/elem.js:200-202 | a read that throws ends `pack` with that error |
| ElemModel.PackMapContents | lib/elem.js:197-205 | `pack` succeeds exactly when every listed file is readable below `buildDir`; its keys are exactly the listed files, each holding that file's contents |
| ElemModel.ParseComponentMain | lib/elem.js:356-371 | the name is the descriptor's; the recorded `main`, joined to `root`, resolves to the main file next to the descriptor, `index.js` when none is named |
| ElemModel.LoadTable | lib/elem.js:63-70 | a missing `last_build.json` is an empty table; a readable one is what it parses to; any other read error throws |
| ElemModel.LoadAfterPersist | lib/elem.js:524-525 | a table written with a codec that parses what it prints loads back as it was |
| BuildModel.VisibleKeeps | lib/elem.js:399-409 | the first filter throws exactly when a path it must stat cannot be stat'ed; otherwise it keeps exactly the listed files with no `/_`, not blank, that are files |
| BuildModel.ComponentsKeeps | lib/elem.js:412-426 | the second filter keeps exactly the files that are not `component.json`, and throws exactly when a descriptor inside `components/` fails to parse |
| BuildModel.ComponentsStep | lib/elem.js:416-419 | a descriptor inside `components/` sets its name's entry; any other file leaves the table as it was |
| BuildModel.ComponentsDeclared | lib/elem.js:412-426 | every table entry is the name and main of some descriptor inside `components/` |
| BuildModel.ComponentsLastWins | lib/elem.js:418 | when several descriptors declare the same name, the last one decides its entry |
| BuildModel.ComponentsFails | lib/elem.js:417 | a descriptor that throws ends the filter with its error |
| BuildModel.BuildAllShape | lib/elem.js:428-430 | one `buildFile` result per file, and `cleaned` and `index` unchanged |
| BuildModel.BuildAllStep | lib/elem.js:428-430 | each file is built on the state the previous ones left |
| BuildModel.BuildAllFails | lib/elem.js:428-430 | the first `buildFile` that throws ends the build |
| BuildModel.AutoloadedKeeps | lib/elem.js:434-437 | exactly the outputs with a `.css`, `.html` or `.js` extension pass; a directory's `false` never does |
| BuildModel.NonEmptyKeeps | lib/elem.js:440-442 | exactly the non-empty paths pass |
| BuildModel.MapRelativeAt | lib/elem.js:450-452 | each entry is its output seen from `buildDir` |
| BuildModel.ServedFiles | lib/elem.js:434-447 | the served outputs hold no repeats, and a path is among them exactly when `buildFile` returned it and it has an autoload extension |
| BuildModel.IndexFilesSorted | lib/elem.js:445-457 | `index.files` is sorted, is a permutation of the served outputs seen from `buildDir`, and holds exactly those |
| BuildModel.InIndexKeeps | lib/elem.js:498-500 | exactly the found files the index lists are packed |
| BuildModel.PackagesPoint | lib/elem.js:509-511 | every packed file points at the asset file; other entries stay |
| BuildModel.AssetFileRelative | lib/elem.js:474-505 | whatever the build directory, the pack's index entry is `assets.json` |
| BuildModel.PackageIndex | lib/elem.js:466-511 | production appends `assets.json` to `files` and keeps `modules`; every packed file is listed in the index and points at `assets.json`; `assets.json` holds the JSON of the pack of exactly those files |
| BuildModel.BuildReuses | lib/elem.js:377-381 | a production build that finds `last_build.json` changes nothing |
| BuildModel.CollectKeeps | lib/elem.js:399-426 | exactly the listed files that are shown and are not `component.json` reach `buildFile`: none with `/_`, no directory |
| BuildModel.PersistPaths | lib/elem.js:519-525 | `index.json`, `last_build.json` and `index.html` resolve to three entries directly in the build directory |
| BuildModel.PersistFrame | lib/elem.js:515-527 | the end of a build sets `this.index` and changes nothing else but the disk, also when a write throws |
| BuildModel.PersistSaves | lib/elem.js:515-527 | afterwards `index.json` holds the index's JSON, `index.html` the bootstrap page, and `last_build.json` loads back as `lastBuild` |
| BuildModel.StageFrame | lib/elem.js:390-393 | the stages set `cleaned` in production and leave `index` alone |
| BuildModel.StageIndex | lib/elem.js:455-511 | the listed files are sorted; in production `assets.json` is the last entry and every package is a listed file pointing at it; otherwise there are no packages |
| BuildModel.BuildCleans | lib/elem.js:390-393 | `cleaned` becomes true on the first production build that runs, and is never cleared |
| BuildModel.BuildPersists | lib/elem.js:373-528 | after a build that runs to the end, `this.index` is the staged index, `index.json` holds its JSON, and `last_build.json` loads back as the `lastBuild` left behind |
| Elem.Runtime.constructor | lib/elem.js:271 | the process starts with an empty `builtFileMap` and the given converter table |
| Elem.Elem.Of | lib/elem.js:52-58 | a new instance: `last_build.json` sits in the build directory, not yet cleaned, no index |
| Elem.Elem.New | lib/elem.js:29-72 | the constructor builds the layout and loads `lastBuild`, and throws exactly when that load throws |
| Elem.Elem.IsOutdated | lib/elem.js:215-226 | the answer and the new `lastBuild` are as `RecordMtime` says, and a failed stat throws |
| Elem.Elem.Prep | lib/elem.js:236-238 | the converter table becomes `Register` of the old one |
| Elem.Elem.BuildFile | lib/elem.js:287-354 | the result and the new state are the model `buildFile`'s |
| Elem.Elem.ConvertFile | lib/elem.js:304-330 | the converter branch, as the model's |
| Elem.Elem.Rebuild | lib/elem.js:312-353 | mkdirp, read, convert or copy, write, and the `builtFileMap` entry, as the model's |
| Elem.Elem.Pack | lib/elem.js:197-205 | the loop's result is the model `pack` |
| Elem.Elem.FilterComponents | lib/elem.js:412-426 | the loop keeps the model filter's files and fills its table |
| Elem.Elem.BuildFiles | lib/elem.js:428-430 | the loop over `buildFile` is the model's |
| Elem.Elem.PackAssets | lib/elem.js:466-511 | the production branch is the model's |
| Elem.Elem.PointPackages | lib/elem.js:509-511 | the loop fills `packages` as the model does |
| Elem.Elem.WriteIndex | lib/elem.js:515-527 | the end of a build is the model's |
| Elem.Elem.Build | lib/elem.js:373-528 | `build()` is the model's, whatever happens |

## Left out

- `boot`, `loader`, `generateLoaderJS` and `buildLoader` (lib/elem.js:84-190) are HTTP middleware and script generation, and `tagName` (lib/elem.js:41) is used only there. Because `loader` is left out, `production` is fixed at construction.
- lib/converters.js is not part of this model: converters are arbitrary functions, and the table starts as whatever the runtime is given.
- `glob.sync` is a function of the pattern and the disk; its matching is not modelled.
- JSON parsing and printing, and the UTF-8 decoding in `pack`'s `'' + readFileSync(...)`, are `Codec` functions. The printed pack maps names to the files' bytes.
- The order of keys in the written `index.json`, `assets.json` and `last_build.json` is not modelled: the `Codec` prints maps, while `JSON.stringify` follows insertion order. Nothing in the build reads that order.
- The round trip of the `lastBuild` table through JSON is a hypothesis of `PersistSaves` and `BuildPersists`, not a fact proved about JSON.
- A descriptor's `main` is a string or missing; other JSON values for it are not modelled. An empty `main` counts as missing, as `||` does.
- `localeCompare` is modelled as code-point lexicographic order.
- Error objects are collapsed to a few codes (`ENOENT`, `ENOTDIR`, `EISDIR`, a TypeError, a parse error); messages are not modelled.
- `console.log` output is not modelled.
- The mtimes are strings supplied by the runtime's clock at each write; time does not advance by itself.
- Symbolic links, permissions and concurrency are not modelled: `statSync` and `mkdirp` fail only on missing entries and on files in the way.
- The passthrough branch's `path.resolve` results and its `path.relative` (lib/elem.js:336-337, 342) are never used, so they are not modelled.
- The production branch's `if(!dir) return` (lib/elem.js:470) cannot trigger, because the build directory is never empty.
- `path.extname` applied to a directory's `false` result is modelled as the extension of an empty name, which is not an autoload extension.
- BuildModel.ServedFiles: no repeats is proved for the outputs before `path.relative`, not for `index.files` itself; two differently spelled outputs could relativise to the same name.
- The test cases of test/test.elem.js and test/test.util.js are stated for any names of the same shape, except `hello`, which is written out.
- ElemModel.ConvertReads and ElemModel.BuildFileCopied: they ask that the source be readable before `mkdirp`. A file that only becomes reachable through a directory `mkdirp` creates is not covered.
- A failed conversion keeps the recorded mtime, as the source does, so the next build will not retry that file. This is modelled, not corrected.
- test/sample/wrapper.js is not part of this model.
