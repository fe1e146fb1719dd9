/**
 * An abstract filesystem: what the two scripts observe of the disk and the
 * operating-system calls they make on it (`open`/`read`, `os.path.exists`,
 * `os.path.getsize`, `os.remove`, `os.makedirs` with `shutil.move`).
 *
 * Files are keyed by their ABSOLUTE path, so that two spellings of one file
 * (which `os.path.abspath` maps to the same string) reach the same entry.
 * The path functions themselves are left uninterpreted.
 */
module FileSystem {
  import opened Wrappers

  newtype byte = x: int | 0 <= x < 256

  type Bytes = seq<byte>

  type Path = string

  type Name = string

  /** What `hashlib.md5().hexdigest()` returns: 32 hexadecimal digits, never empty. */
  type Digest = s: string | |s| == 32 witness "00000000000000000000000000000000"

  /** `os.path.abspath`, `os.path.join` and `os.path.relpath`, uninterpreted. */
  datatype PathOps = PathOps(abs: Path -> Path, join: (Path, Path) -> Path, rel: (Path, Path) -> Path)

  /**
   * The disk: file contents and existing directories by absolute path, the
   * files no read of which succeeds, and the paths at which the system refuses
   * to delete or create a file (a lock, a permission, a failing `makedirs`).
   */
  datatype Disk = Disk(files: map<Path, Bytes>, dirs: set<Path>, unreadable: set<Path>, denied: set<Path>)

  predicate StartsWith(s: string, prefix: string) {
    |prefix| <= |s| && s[..|prefix|] == prefix
  }

  /** `os.path.exists(p)`: a file or a directory is there. */
  predicate Exists(disk: Disk, ops: PathOps, p: Path) {
    ops.abs(p) in disk.files || ops.abs(p) in disk.dirs
  }

  /** What hashing the file at `p` yields: nothing when it is missing or unreadable. */
  function FileDigest(disk: Disk, ops: PathOps, md5: Bytes -> Digest, p: Path): Option<Digest> {
    var a := ops.abs(p);
    if a in disk.files && a !in disk.unreadable then Some(md5(disk.files[a])) else None
  }

  /** `os.path.getsize(p)`: raises when there is no file at `p`. */
  function Size(disk: Disk, ops: PathOps, p: Path): (r: Option<nat>)
    ensures r.Some? <==> ops.abs(p) in disk.files
    ensures r.Some? ==> r.value == |disk.files[ops.abs(p)]|
  {
    var a := ops.abs(p);
    if a in disk.files then Some(|disk.files[a]|) else None
  }

  /** Whether `os.remove(p)` succeeds. */
  predicate CanRemove(disk: Disk, ops: PathOps, p: Path) {
    ops.abs(p) in disk.files && ops.abs(p) !in disk.denied
  }

  /**
   * `os.remove(p)`: on success exactly the file at `p` is gone; on failure
   * (missing, locked, refused) the disk is as it was.
   */
  function Remove(disk: Disk, ops: PathOps, p: Path): (r: (Disk, bool))
    ensures r.1 <==> CanRemove(disk, ops, p)
    ensures r.1 ==> r.0 == disk.(files := disk.files - {ops.abs(p)})
    ensures !r.1 ==> r.0 == disk
  {
    if CanRemove(disk, ops, p) then (disk.(files := disk.files - {ops.abs(p)}), true) else (disk, false)
  }

  /** Whether `os.makedirs(dirname(dst))` followed by `shutil.move(src, dst)` succeeds. */
  predicate CanMove(disk: Disk, ops: PathOps, src: Path, dst: Path) {
    ops.abs(src) in disk.files && ops.abs(src) !in disk.denied && ops.abs(dst) !in disk.denied
  }

  /**
   * `shutil.move(src, dst)`: on success the content of `src` is at `dst`
   * (replacing what was there) and no longer at `src`; every other file is
   * untouched. On failure the disk is as it was.
   */
  function Move(disk: Disk, ops: PathOps, src: Path, dst: Path): (r: (Disk, bool))
    ensures r.1 <==> CanMove(disk, ops, src, dst)
    ensures r.1 ==> ops.abs(dst) in r.0.files && r.0.files[ops.abs(dst)] == disk.files[ops.abs(src)]
    ensures r.1 && ops.abs(src) != ops.abs(dst) ==> ops.abs(src) !in r.0.files
    ensures r.1 ==> forall q :: q != ops.abs(src) && q != ops.abs(dst) ==>
                      (q in r.0.files <==> q in disk.files) && (q in disk.files ==> r.0.files[q] == disk.files[q])
    ensures r.0.dirs == disk.dirs && r.0.unreadable == disk.unreadable && r.0.denied == disk.denied
    ensures !r.1 ==> r.0 == disk
  {
    if CanMove(disk, ops, src, dst) then
      var content := disk.files[ops.abs(src)];
      (disk.(files := (disk.files - {ops.abs(src)})[ops.abs(dst) := content]), true)
    else
      (disk, false)
  }
}
