/**
 * The server's view of the file system: a map from normalised absolute
 * paths to entries, and the `fs` calls the two core files make on it.
 */
module FileSystem {
  import opened Base
  import opened NodePath

  datatype Entry = File(content: seq<byte>) | Dir

  type Disk = map<seq<string>, Entry>

  /** `fs.existsSync(p)`: a path written with a trailing `/` resolves only to a directory. */
  predicate Exists(disk: Disk, p: FsPath) {
    p.segs in disk && (p.dirOnly ==> disk[p.segs].Dir?)
  }

  /** `fs.existsSync(p) && fs.statSync(p).isFile()`; also the paths `fs.readFileSync` can read. */
  predicate IsRegularFile(disk: Disk, p: FsPath) {
    p.segs in disk && disk[p.segs].File? && !p.dirOnly
  }

  /**
   * `fs.mkdirSync(p, { recursive: true })`: every missing ancestor of `p`
   * and `p` itself become directories; what already exists is left alone.
   */
  function MkDirs(disk: Disk, segs: seq<string>): (r: Disk)
    ensures segs in r
    decreases |segs|
  {
    var d := if |segs| == 0 then disk else MkDirs(disk, segs[..|segs| - 1]);
    if segs in d then d else d[segs := Dir]
  }

  /** `mkdirSync` never changes or removes an existing entry. */
  lemma {:induction false} MkDirsKeeps(disk: Disk, segs: seq<string>, q: seq<string>)
    requires q in disk
    ensures q in MkDirs(disk, segs) && MkDirs(disk, segs)[q] == disk[q]
    decreases |segs|
  {
    if |segs| > 0 {
      MkDirsKeeps(disk, segs[..|segs| - 1], q);
    }
  }

  /** Every entry `mkdirSync` adds is a directory on the way to `segs`, and all of them are added. */
  lemma {:induction false} MkDirsCreates(disk: Disk, segs: seq<string>, q: seq<string>)
    ensures q in MkDirs(disk, segs) && q !in disk ==> MkDirs(disk, segs)[q] == Dir && q <= segs
    ensures q <= segs ==> q in MkDirs(disk, segs)
    decreases |segs|
  {
    if |segs| > 0 {
      var d := MkDirs(disk, segs[..|segs| - 1]);
      MkDirsCreates(disk, segs[..|segs| - 1], q);
      if q in d && q !in disk {
        assert q <= segs;
      }
      if q <= segs && q != segs {
        assert q <= segs[..|segs| - 1];
      }
    }
  }
}
