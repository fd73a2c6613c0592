/** The part of the file system the build touches: entries by resolved path, and the
    synchronous `fs` calls, `mkdirp.sync` and `rimraf.sync` over them. */
module FileSys {

  import opened Wrappers
  import opened JsString
  import opened NodePath

  newtype byte = x: int | 0 <= x < 256

  type Bytes = seq<byte>

  /** An entry: a directory, or a file with its contents. Both carry the modification time
      as `'' + fs.statSync(p).mtime` prints it. */
  datatype Node = Dir(mtime: string) | File(data: Bytes, mtime: string)

  /** Entries by resolved path, the names below `/` (the empty list is `/` itself). */
  type Disk = map<seq<string>, Node>

  function Parent(segs: seq<string>): seq<string>
    requires segs != []
  {
    segs[..|segs| - 1]
  }

  predicate IsPrefix(a: seq<string>, b: seq<string>)
  {
    |a| <= |b| && b[..|a|] == a
  }

  /** Looking an entry up the way the kernel does: every directory on the way must exist and
      be a directory. The walk starts from the lexically resolved path, so `a/missing/../b`
      finds `a/b`, where the kernel would fail on `missing`; the build only passes paths that
      `path.normalize`, `path.join` or `glob` produced, whose `..` pieces, if any, all come
      first. */
  function Walk(d: Disk, segs: seq<string>): Result<Node>
  {
    if segs == [] then (if [] in d then Ok(d[[]]) else Err(NoEntry))
    else
      match Walk(d, Parent(segs))
      case Err(e) => Err(e)
      case Ok(up) =>
        if up.File? then Err(NotDirectory)
        else if segs in d then Ok(d[segs])
        else Err(NoEntry)
  }

  /** `fs.statSync(p)`; a trailing `/` demands a directory. */
  function Stat(d: Disk, cwd: seq<string>, p: string): (r: Result<Node>)
    ensures p == "" ==> r == Err(NoEntry)
  {
    if p == "" then Err(NoEntry)
    else
      match Walk(d, ResolveSegs(cwd, p))
      case Err(e) => Err(e)
      case Ok(n) => if n.File? && p[|p| - 1] == '/' then Err(NotDirectory) else Ok(n)
  }

  /** `fs.existsSync(p)`: whether `statSync` would succeed. */
  predicate Exists(d: Disk, cwd: seq<string>, p: string)
  {
    Stat(d, cwd, p).Ok?
  }

  /** `fs.readFileSync(p)`. */
  function ReadFile(d: Disk, cwd: seq<string>, p: string): (r: Result<Bytes>)
    ensures r.Ok? <==> Stat(d, cwd, p).Ok? && Stat(d, cwd, p).value.File?
  {
    match Stat(d, cwd, p)
    case Err(e) => Err(e)
    case Ok(n) => if n.Dir? then Err(IsDirectory) else Ok(n.data)
  }

  /** `fs.writeFileSync(p, data)` at time `now`: creates or replaces a file inside an existing
      directory. */
  function WriteFile(d: Disk, cwd: seq<string>, p: string, data: Bytes, now: string): Result<Disk>
  {
    var segs := ResolveSegs(cwd, p);
    if p == "" then Err(NoEntry)
    else if segs == [] then Err(IsDirectory)
    else
      match Walk(d, Parent(segs))
      case Err(e) => Err(e)
      case Ok(up) =>
        if up.File? then Err(NotDirectory)
        else if segs in d && d[segs].Dir? then Err(IsDirectory)
        else if p[|p| - 1] == '/' then Err(if segs in d then NotDirectory else IsDirectory)
        else Ok(d[segs := File(data, now)])
  }

  /** Creates the directory `segs` and every missing directory above it. */
  function MkSegs(d: Disk, segs: seq<string>, now: string): Result<Disk>
    decreases |segs|
  {
    var up := if segs == [] then Ok(d) else MkSegs(d, Parent(segs), now);
    match up
    case Err(e) => Err(e)
    case Ok(d1) =>
      if segs !in d1 then Ok(d1[segs := Dir(now)])
      else if d1[segs].Dir? then Ok(d1)
      else Err(NotDirectory)
  }

  /** `mkdirp.sync(p)` at time `now`. */
  function MkdirP(d: Disk, cwd: seq<string>, p: string, now: string): Result<Disk>
  {
    MkSegs(d, ResolveSegs(cwd, p), now)
  }

  /** `rimraf.sync(p)`: removes `p` and everything below it, and nothing when it is missing;
      `/` itself stays. */
  function RemoveTree(d: Disk, cwd: seq<string>, p: string): (r: Disk)
    ensures forall k :: k in r <==> k in d && (k == [] || !IsPrefix(ResolveSegs(cwd, p), k))
    ensures forall k :: k in r ==> r[k] == d[k]
  {
    var segs := ResolveSegs(cwd, p);
    map k | k in d && (k == [] || !IsPrefix(segs, k)) :: d[k]
  }

  // ---------------------------------------------------------------------------------------
  // Writes are read back, and leave every other entry as it was.

  /** Every entry of `d` is in `d1`, unchanged. */
  predicate Extends(d: Disk, d1: Disk)
  {
    forall k :: k in d ==> k in d1 && d1[k] == d[k]
  }

  /** An entry that is not on the way to `segs` does not change what the walk finds. */
  lemma {:induction false} WalkUpdateElsewhere(d: Disk, k: seq<string>, v: Node, segs: seq<string>)
    requires !IsPrefix(k, segs)
    ensures Walk(d[k := v], segs) == Walk(d, segs)
  {
    if segs != [] {
      assert !IsPrefix(k, Parent(segs));
      WalkUpdateElsewhere(d, k, v, Parent(segs));
    }
  }

  /** Adding entries keeps what a successful walk finds. */
  lemma {:induction false} WalkExtends(d: Disk, d1: Disk, segs: seq<string>)
    requires Extends(d, d1) && Walk(d, segs).Ok?
    ensures Walk(d1, segs) == Walk(d, segs)
  {
    if segs != [] {
      WalkExtends(d, d1, Parent(segs));
    }
  }

  lemma ParentNotPrefix(segs: seq<string>)
    requires segs != []
    ensures !IsPrefix(segs, Parent(segs))
  {
  }

  /** What was written is read back, stamped with the time of the write. */
  lemma ReadAfterWrite(d: Disk, cwd: seq<string>, p: string, data: Bytes, now: string)
    requires WriteFile(d, cwd, p, data, now).Ok?
    ensures var d1 := WriteFile(d, cwd, p, data, now).value;
      Stat(d1, cwd, p) == Ok(File(data, now)) && ReadFile(d1, cwd, p) == Ok(data)
  {
    var segs := ResolveSegs(cwd, p);
    ParentNotPrefix(segs);
    WalkUpdateElsewhere(d, segs, File(data, now), Parent(segs));
  }

  /** A write changes the entry it names and no other. */
  lemma WriteElsewhere(d: Disk, cwd: seq<string>, p: string, data: Bytes, now: string, q: string)
    requires WriteFile(d, cwd, p, data, now).Ok?
    requires !IsPrefix(ResolveSegs(cwd, p), ResolveSegs(cwd, q))
    ensures var d1 := WriteFile(d, cwd, p, data, now).value;
      Stat(d1, cwd, q) == Stat(d, cwd, q) && ReadFile(d1, cwd, q) == ReadFile(d, cwd, q)
  {
    WalkUpdateElsewhere(d, ResolveSegs(cwd, p), File(data, now), ResolveSegs(cwd, q));
  }

  /** `mkdirp` only adds directories, and afterwards the directory is there. */
  lemma {:induction false} MkSegsMakes(d: Disk, segs: seq<string>, now: string)
    requires MkSegs(d, segs, now).Ok?
    ensures var d1 := MkSegs(d, segs, now).value;
      Extends(d, d1) && segs in d1 && d1[segs].Dir?
  {
    if segs != [] {
      MkSegsMakes(d, Parent(segs), now);
    }
  }

  /** After `mkdirp`, the walk to the directory succeeds: every directory above it is a
      directory too. */
  lemma {:induction false} MkSegsWalks(d: Disk, segs: seq<string>, now: string)
    requires [] in d && d[[]].Dir?
    requires MkSegs(d, segs, now).Ok?
    ensures var d1 := MkSegs(d, segs, now).value; Walk(d1, segs).Ok? && Walk(d1, segs).value.Dir?
  {
    var d1 := MkSegs(d, segs, now).value;
    if segs != [] {
      var d0 := MkSegs(d, Parent(segs), now).value;
      MkSegsWalks(d, Parent(segs), now);
      if segs !in d0 {
        WalkUpdateElsewhere(d0, segs, Dir(now), Parent(segs));
      }
    } else {
      MkSegsMakes(d, segs, now);
    }
  }

  /** `mkdirp` leaves every file readable as it was. */
  lemma MkdirPKeepsFiles(d: Disk, cwd: seq<string>, p: string, now: string, q: string)
    requires MkdirP(d, cwd, p, now).Ok? && ReadFile(d, cwd, q).Ok?
    ensures ReadFile(MkdirP(d, cwd, p, now).value, cwd, q) == ReadFile(d, cwd, q)
  {
    MkSegsMakes(d, ResolveSegs(cwd, p), now);
    WalkExtends(d, MkdirP(d, cwd, p, now).value, ResolveSegs(cwd, q));
  }

  /** After `rimraf`, nothing below the removed path is found. */
  lemma RemoveTreeRemoves(d: Disk, cwd: seq<string>, p: string, q: string)
    requires var segs := ResolveSegs(cwd, p); segs != [] && IsPrefix(segs, ResolveSegs(cwd, q))
    ensures !Exists(RemoveTree(d, cwd, p), cwd, q)
  {
    var segs := ResolveSegs(cwd, p);
    var r := RemoveTree(d, cwd, p);
    var t := ResolveSegs(cwd, q);
    assert segs !in r;
    RemovedBelow(r, segs, t);
  }

  /** Below a missing entry every walk fails. */
  lemma {:induction false} RemovedBelow(d: Disk, segs: seq<string>, t: seq<string>)
    requires segs != [] && segs !in d && IsPrefix(segs, t)
    ensures Walk(d, t).Err?
  {
    if t != segs {
      assert IsPrefix(segs, Parent(t)) by {
        assert Parent(t)[..|segs|] == t[..|segs|];
      }
      RemovedBelow(d, segs, Parent(t));
    } else {
      assert t == segs;
    }
  }

  /** `rimraf` keeps every entry outside the removed tree. */
  lemma {:induction false} RemoveTreeKeeps(d: Disk, cwd: seq<string>, p: string, t: seq<string>)
    requires forall k :: IsPrefix(k, t) ==> k == [] || !IsPrefix(ResolveSegs(cwd, p), k)
    ensures Walk(RemoveTree(d, cwd, p), t) == Walk(d, t)
  {
    if t != [] {
      assert forall k :: IsPrefix(k, Parent(t)) ==> IsPrefix(k, t);
      RemoveTreeKeeps(d, cwd, p, Parent(t));
    }
  }
}
