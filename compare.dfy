/**
 * Reference-vs-target mode (`compare_and_delete_duplicates.main`): index the
 * reference tree by digest, then delete every target file whose digest is in
 * the index, unless it is the indexed reference file itself, logging one row
 * per deletion.
 *
 * The functions are the specification, defined by the same left-to-right
 * folds as the loops of `CompareAndDelete`; the lemmas state what the source
 * promises about them.
 */
module CompareDelete {
  import opened Wrappers
  import opened FileSystem
  import opened Hashing
  import opened Scanning

  /** `REFERENCE_DIR`, `TARGET_DIR` and `EXTENSIONS`. */
  datatype Config = Config(referenceDir: Path, targetDir: Path, extensions: set<string>)

  /** One CSV row; its `Status` column is always 'Deleted'. */
  datatype Deletion = Deletion(deletedPath: Path, keptPath: Path, sizeBytes: nat)

  /** What pass 2 has produced so far: the disk, the CSV rows, `deleted_files` and `deleted_size`. */
  datatype Sweep = Sweep(disk: Disk, log: seq<Deletion>, deletedFiles: seq<Path>, deletedSize: nat)

  /** The result of `main`: it stops at once when a directory is missing. */
  datatype Outcome =
    | MissingDirectory
    | Completed(log: seq<Deletion>, deletedFiles: seq<Path>, deletedSize: nat, count: nat)

  // ------------------------------------------------------------ pass 1

  /** `reference_hashes` after scanning `paths`: a later path with the same digest overwrites. */
  function ReferenceHashes(disk: Disk, ops: PathOps, md5: Bytes -> Digest, paths: seq<Path>): map<Digest, Path> {
    if paths == [] then map[]
    else
      var refs := ReferenceHashes(disk, ops, md5, paths[..|paths| - 1]);
      match FileDigest(disk, ops, md5, paths[|paths| - 1])
      case None => refs
      case Some(d) => refs[d := paths[|paths| - 1]]
  }

  /** `count` after scanning `paths`. */
  function ReferenceCount(disk: Disk, ops: PathOps, md5: Bytes -> Digest, paths: seq<Path>): nat {
    if paths == [] then 0
    else
      ReferenceCount(disk, ops, md5, paths[..|paths| - 1])
        + (if FileDigest(disk, ops, md5, paths[|paths| - 1]).Some? then 1 else 0)
  }

  /** The reference paths that hash, in scan order. */
  function HashedPaths(disk: Disk, ops: PathOps, md5: Bytes -> Digest, paths: seq<Path>): seq<Path> {
    if paths == [] then []
    else
      var p := paths[|paths| - 1];
      HashedPaths(disk, ops, md5, paths[..|paths| - 1]) + (if FileDigest(disk, ops, md5, p).Some? then [p] else [])
  }

  // ------------------------------------------------------------ pass 2

  /** Whether the target file at `p` is deleted, given the sweep so far. */
  predicate Deletes(ops: PathOps, md5: Bytes -> Digest, refs: map<Digest, Path>, disk: Disk, p: Path) {
    var h := FileDigest(disk, ops, md5, p);
    && h.Some?
    && h.value in refs
    && ops.abs(p) != ops.abs(refs[h.value])
    && CanRemove(disk, ops, p)
  }

  /** One target file: hash, look up, guard, `getsize`, `os.remove`, log. */
  function SweepStep(ops: PathOps, md5: Bytes -> Digest, refs: map<Digest, Path>, st: Sweep, p: Path): Sweep {
    match FileDigest(st.disk, ops, md5, p)
    case None => st
    case Some(h) =>
      if h !in refs then st
      else
        var original := refs[h];
        if ops.abs(p) == ops.abs(original) then st
        else
          match Size(st.disk, ops, p)
          case None => st
          case Some(size) =>
            var (disk', ok) := Remove(st.disk, ops, p);
            if !ok then st
            else Sweep(disk', st.log + [Deletion(p, original, size)], st.deletedFiles + [p], st.deletedSize + size)
  }

  function SweepAll(ops: PathOps, md5: Bytes -> Digest, refs: map<Digest, Path>, st: Sweep, paths: seq<Path>): Sweep {
    if paths == [] then st
    else SweepStep(ops, md5, refs, SweepAll(ops, md5, refs, st, paths[..|paths| - 1]), paths[|paths| - 1])
  }

  /** A whole run of `main`, given the traversals of the two directories. */
  function CompareRun(cfg: Config, ops: PathOps, md5: Bytes -> Digest, disk: Disk,
                      referenceWalk: seq<Listing>, targetWalk: seq<Listing>): (Disk, Outcome)
  {
    if !Exists(disk, ops, cfg.referenceDir) || !Exists(disk, ops, cfg.targetDir) then
      (disk, MissingDirectory)
    else
      var referencePaths := FindMediaFiles(cfg.extensions, ops, referenceWalk);
      var refs := ReferenceHashes(disk, ops, md5, referencePaths);
      var count := ReferenceCount(disk, ops, md5, referencePaths);
      var sweep := SweepAll(ops, md5, refs, Sweep(disk, [], [], 0), FindMediaFiles(cfg.extensions, ops, targetWalk));
      (sweep.disk, Completed(sweep.log, sweep.deletedFiles, sweep.deletedSize, count))
  }

  // ------------------------------------------------------------ pass 1 lemmas

  /**
   * Last write wins: a digest is indexed exactly when some reference path
   * hashes to it, and it maps to the LAST such path of the scan.
   */
  lemma {:induction false} ReferenceHashesLastWins(disk: Disk, ops: PathOps, md5: Bytes -> Digest, paths: seq<Path>, d: Digest)
    ensures d in ReferenceHashes(disk, ops, md5, paths) <==>
              exists i :: 0 <= i < |paths| && FileDigest(disk, ops, md5, paths[i]) == Some(d)
    ensures d in ReferenceHashes(disk, ops, md5, paths) ==>
              exists i :: 0 <= i < |paths| && FileDigest(disk, ops, md5, paths[i]) == Some(d)
                          && ReferenceHashes(disk, ops, md5, paths)[d] == paths[i]
                          && forall j :: i < j < |paths| ==> FileDigest(disk, ops, md5, paths[j]) != Some(d)
  {
    if paths != [] {
      var init := paths[..|paths| - 1];
      var last := |paths| - 1;
      ReferenceHashesLastWins(disk, ops, md5, init, d);
      if FileDigest(disk, ops, md5, paths[last]) != Some(d) {
        if exists i :: 0 <= i < |init| && FileDigest(disk, ops, md5, init[i]) == Some(d) {
          var i :| 0 <= i < |init| && FileDigest(disk, ops, md5, init[i]) == Some(d)
                   && ReferenceHashes(disk, ops, md5, init)[d] == init[i]
                   && forall j :: i < j < |init| ==> FileDigest(disk, ops, md5, init[j]) != Some(d);
          assert paths[i] == init[i];
          forall j | i < j < |paths| ensures FileDigest(disk, ops, md5, paths[j]) != Some(d) {
            if j < last { assert paths[j] == init[j]; }
          }
        }
        if exists i :: 0 <= i < |paths| && FileDigest(disk, ops, md5, paths[i]) == Some(d) {
          var i :| 0 <= i < |paths| && FileDigest(disk, ops, md5, paths[i]) == Some(d);
          assert i < last && init[i] == paths[i];
        }
      }
    }
  }

  /** `count` is the number of reference files hashed successfully. */
  lemma {:induction false} ReferenceCountIsHashed(disk: Disk, ops: PathOps, md5: Bytes -> Digest, paths: seq<Path>)
    ensures ReferenceCount(disk, ops, md5, paths) == |HashedPaths(disk, ops, md5, paths)|
    ensures forall p :: p in HashedPaths(disk, ops, md5, paths) <==> p in paths && FileDigest(disk, ops, md5, p).Some?
  {
    if paths != [] {
      var init := paths[..|paths| - 1];
      ReferenceCountIsHashed(disk, ops, md5, init);
      assert paths == init + [paths[|paths| - 1]];
    }
  }

  /** Internal duplicates of the reference tree collapse: there are never more digests indexed than files counted. */
  lemma {:induction false} ReferenceCountBoundsIndex(disk: Disk, ops: PathOps, md5: Bytes -> Digest, paths: seq<Path>)
    ensures |ReferenceHashes(disk, ops, md5, paths).Keys| <= ReferenceCount(disk, ops, md5, paths)
  {
    if paths != [] {
      var init := paths[..|paths| - 1];
      ReferenceCountBoundsIndex(disk, ops, md5, init);
      var refs := ReferenceHashes(disk, ops, md5, init);
      match FileDigest(disk, ops, md5, paths[|paths| - 1])
      case None =>
      case Some(d) =>
        assert refs[d := paths[|paths| - 1]].Keys == refs.Keys + {d};
        assert |refs.Keys + {d}| <= |refs.Keys| + |{d}|;
    }
  }

  /** Every indexed reference path is a file of the disk whose content has that digest. */
  ghost predicate ReferencesIntact(ops: PathOps, md5: Bytes -> Digest, refs: map<Digest, Path>, disk0: Disk, disk: Disk) {
    forall d :: d in refs ==>
      && ops.abs(refs[d]) in disk0.files
      && ops.abs(refs[d]) in disk.files
      && disk.files[ops.abs(refs[d])] == disk0.files[ops.abs(refs[d])]
      && md5(disk.files[ops.abs(refs[d])]) == d
  }

  lemma ReferenceHashesIntact(disk: Disk, ops: PathOps, md5: Bytes -> Digest, paths: seq<Path>)
    ensures ReferencesIntact(ops, md5, ReferenceHashes(disk, ops, md5, paths), disk, disk)
  {
    var refs := ReferenceHashes(disk, ops, md5, paths);
    forall d | d in refs
      ensures ops.abs(refs[d]) in disk.files && md5(disk.files[ops.abs(refs[d])]) == d
    {
      ReferenceHashesLastWins(disk, ops, md5, paths, d);
    }
  }

  // ------------------------------------------------------------ pass 2 lemmas

  /**
   * One target file. It is deleted exactly when it hashes, its digest is
   * indexed, its absolute path differs from the indexed reference path, and
   * the removal succeeds; then exactly one 'Deleted' row is written, with the
   * file, the reference path and the size, and the accumulators grow by that
   * file and size. Otherwise (no hash, no match, same file, failed size
   * lookup or removal) nothing changes and no row is written.
   */
  lemma StepDeletes(ops: PathOps, md5: Bytes -> Digest, refs: map<Digest, Path>, st: Sweep, p: Path)
    ensures var r := SweepStep(ops, md5, refs, st, p);
      if Deletes(ops, md5, refs, st.disk, p) then
        var size := |st.disk.files[ops.abs(p)]|;
        var original := refs[FileDigest(st.disk, ops, md5, p).value];
        && r.log == st.log + [Deletion(p, original, size)]
        && r.deletedFiles == st.deletedFiles + [p]
        && r.deletedSize == st.deletedSize + size
        && r.disk == st.disk.(files := st.disk.files - {ops.abs(p)})
      else
        r == st
  {
  }

  /** The accumulators of pass 2: `deleted_files` and `deleted_size` are the paths and sizes of the rows. */
  ghost predicate SweepAccounted(st: Sweep) {
    && |st.deletedFiles| == |st.log|
    && (forall i :: 0 <= i < |st.log| ==> st.deletedFiles[i] == st.log[i].deletedPath)
    && st.deletedSize == SumRowSizes(st.log)
  }

  function SumRowSizes(rows: seq<Deletion>): nat {
    if rows == [] then 0 else SumRowSizes(rows[..|rows| - 1]) + rows[|rows| - 1].sizeBytes
  }

  /**
   * What pass 2 keeps true, file after file: the accumulators match the rows;
   * the indexed reference files are still there, unchanged; every row names
   * a file now gone whose content had the digest of its kept reference path,
   * a different file; every file removed so far is named by a row; and the
   * disk differs only by removed files.
   */
  ghost predicate SweepInvariant(ops: PathOps, md5: Bytes -> Digest, refs: map<Digest, Path>, disk0: Disk, st: Sweep) {
    && SweepAccounted(st)
    && ReferencesIntact(ops, md5, refs, disk0, st.disk)
    && (forall row :: row in st.log ==>
          && row.keptPath in refs.Values
          && ops.abs(row.deletedPath) != ops.abs(row.keptPath)
          && ops.abs(row.deletedPath) in disk0.files
          && ops.abs(row.deletedPath) !in st.disk.files
          && md5(disk0.files[ops.abs(row.deletedPath)]) == md5(disk0.files[ops.abs(row.keptPath)]))
    && (forall q :: q in disk0.files && q !in st.disk.files ==>
          exists row :: row in st.log && ops.abs(row.deletedPath) == q)
    && st.disk.dirs == disk0.dirs && st.disk.unreadable == disk0.unreadable && st.disk.denied == disk0.denied
    && (forall q :: q in st.disk.files ==> q in disk0.files && st.disk.files[q] == disk0.files[q])
  }

  lemma StepKeepsInvariant(ops: PathOps, md5: Bytes -> Digest, refs: map<Digest, Path>, disk0: Disk, st: Sweep, p: Path)
    requires ReferencesIntact(ops, md5, refs, disk0, disk0)
    requires SweepInvariant(ops, md5, refs, disk0, st)
    ensures SweepInvariant(ops, md5, refs, disk0, SweepStep(ops, md5, refs, st, p))
  {
    StepDeletes(ops, md5, refs, st, p);
    if Deletes(ops, md5, refs, st.disk, p) {
      var r := SweepStep(ops, md5, refs, st, p);
      var a := ops.abs(p);
      var h := FileDigest(st.disk, ops, md5, p).value;
      // the removed file is none of the indexed reference files
      forall d | d in refs ensures ops.abs(refs[d]) != a {
        assert md5(st.disk.files[ops.abs(refs[d])]) == d;
      }
      var row := Deletion(p, refs[h], |st.disk.files[a]|);
      assert r.log == st.log + [row];
      assert refs[h] in refs.Values;
      forall x | x in r.log
        ensures x.keptPath in refs.Values
        ensures ops.abs(x.deletedPath) != ops.abs(x.keptPath)
        ensures ops.abs(x.deletedPath) in disk0.files && ops.abs(x.deletedPath) !in r.disk.files
        ensures md5(disk0.files[ops.abs(x.deletedPath)]) == md5(disk0.files[ops.abs(x.keptPath)])
      {
        if x != row {
          assert x in st.log;
        }
      }
      forall q | q in disk0.files && q !in r.disk.files
        ensures exists x :: x in r.log && ops.abs(x.deletedPath) == q
      {
        if q == a {
          assert row in r.log;
        } else {
          var x :| x in st.log && ops.abs(x.deletedPath) == q;
          assert x in r.log;
        }
      }
      assert r.deletedSize == SumRowSizes(r.log) by {
        assert r.log[..|r.log| - 1] == st.log;
      }
    }
  }

  lemma {:induction false} SweepAllInvariant(ops: PathOps, md5: Bytes -> Digest, refs: map<Digest, Path>, disk0: Disk, st: Sweep, paths: seq<Path>)
    requires ReferencesIntact(ops, md5, refs, disk0, disk0)
    requires SweepInvariant(ops, md5, refs, disk0, st)
    ensures SweepInvariant(ops, md5, refs, disk0, SweepAll(ops, md5, refs, st, paths))
  {
    if paths != [] {
      SweepAllInvariant(ops, md5, refs, disk0, st, paths[..|paths| - 1]);
      StepKeepsInvariant(ops, md5, refs, disk0, SweepAll(ops, md5, refs, st, paths[..|paths| - 1]), paths[|paths| - 1]);
    }
  }

  /**
   * A whole run. It stops before hashing, deleting or logging anything when
   * either directory is missing. Otherwise: `deleted_files` and
   * `deleted_size` are the paths and sizes of the rows; every reference file
   * the index keeps is still on disk, unchanged; every row names a deleted
   * file, different from its kept reference file, whose content had the same
   * digest as that reference file; every file that is gone is named by a
   * row; and no file was changed or created.
   */
  lemma CompareRunProperties(cfg: Config, ops: PathOps, md5: Bytes -> Digest, disk: Disk,
                             referenceWalk: seq<Listing>, targetWalk: seq<Listing>)
    ensures var (disk', outcome) := CompareRun(cfg, ops, md5, disk, referenceWalk, targetWalk);
      && (outcome.MissingDirectory? <==> !Exists(disk, ops, cfg.referenceDir) || !Exists(disk, ops, cfg.targetDir))
      && (outcome.MissingDirectory? ==> disk' == disk)
      && (outcome.Completed? ==>
            var refs := ReferenceHashes(disk, ops, md5, FindMediaFiles(cfg.extensions, ops, referenceWalk));
            SweepInvariant(ops, md5, refs, disk, Sweep(disk', outcome.log, outcome.deletedFiles, outcome.deletedSize)))
  {
    if Exists(disk, ops, cfg.referenceDir) && Exists(disk, ops, cfg.targetDir) {
      var refs := ReferenceHashes(disk, ops, md5, FindMediaFiles(cfg.extensions, ops, referenceWalk));
      ReferenceHashesIntact(disk, ops, md5, FindMediaFiles(cfg.extensions, ops, referenceWalk));
      SweepAllInvariant(ops, md5, refs, disk, Sweep(disk, [], [], 0), FindMediaFiles(cfg.extensions, ops, targetWalk));
    }
  }

  /**
   * Every row comes from the target scan, and names as kept path the
   * reference path indexed under the digest of the deleted file's content.
   */
  lemma {:induction false} SweepRowsFromTargets(ops: PathOps, md5: Bytes -> Digest, refs: map<Digest, Path>, disk0: Disk, paths: seq<Path>, row: Deletion)
    requires row in SweepAll(ops, md5, refs, Sweep(disk0, [], [], 0), paths).log
    ensures row.deletedPath in paths
    ensures ops.abs(row.deletedPath) in disk0.files
    ensures var d := md5(disk0.files[ops.abs(row.deletedPath)]); d in refs && refs[d] == row.keptPath
  {
    var init := paths[..|paths| - 1];
    var st := SweepAll(ops, md5, refs, Sweep(disk0, [], [], 0), init);
    var p := paths[|paths| - 1];
    FilesOnlyShrink(ops, md5, refs, disk0, init);
    StepDeletes(ops, md5, refs, st, p);
    if row in st.log {
      SweepRowsFromTargets(ops, md5, refs, disk0, init, row);
    } else {
      assert row.deletedPath == p;
    }
  }

  /** Pass 2 only removes files: whatever is left is as it was. */
  lemma {:induction false} FilesOnlyShrink(ops: PathOps, md5: Bytes -> Digest, refs: map<Digest, Path>, disk0: Disk, paths: seq<Path>)
    ensures var st := SweepAll(ops, md5, refs, Sweep(disk0, [], [], 0), paths);
      && st.disk.unreadable == disk0.unreadable
      && forall q :: q in st.disk.files ==> q in disk0.files && st.disk.files[q] == disk0.files[q]
  {
    if paths != [] {
      var st := SweepAll(ops, md5, refs, Sweep(disk0, [], [], 0), paths[..|paths| - 1]);
      FilesOnlyShrink(ops, md5, refs, disk0, paths[..|paths| - 1]);
      StepDeletes(ops, md5, refs, st, paths[|paths| - 1]);
    }
  }

  /**
   * A target file that does not hash, or whose digest is not indexed, is
   * left as it was and no row names it (the `continue`s of pass 2).
   */
  lemma {:induction false} SweepSparesUnmatched(ops: PathOps, md5: Bytes -> Digest, refs: map<Digest, Path>, disk0: Disk, paths: seq<Path>, p: Path)
    requires FileDigest(disk0, ops, md5, p).None? || FileDigest(disk0, ops, md5, p).value !in refs
    ensures var st := SweepAll(ops, md5, refs, Sweep(disk0, [], [], 0), paths);
      && (ops.abs(p) in st.disk.files <==> ops.abs(p) in disk0.files)
      && (ops.abs(p) in disk0.files ==> st.disk.files[ops.abs(p)] == disk0.files[ops.abs(p)])
      && forall row :: row in st.log ==> ops.abs(row.deletedPath) != ops.abs(p)
  {
    if paths != [] {
      var init := paths[..|paths| - 1];
      var last := paths[|paths| - 1];
      var st := SweepAll(ops, md5, refs, Sweep(disk0, [], [], 0), init);
      SweepSparesUnmatched(ops, md5, refs, disk0, init, p);
      FilesOnlyShrink(ops, md5, refs, disk0, init);
      StepDeletes(ops, md5, refs, st, last);
      if Deletes(ops, md5, refs, st.disk, last) {
        // the removed file hashed to an indexed digest, so it is not the file at `p`
        assert ops.abs(last) != ops.abs(p);
      }
    }
  }

  /** A whole run leaves every target file that does not hash or does not match alone, and logs nothing for it. */
  lemma CompareRunSparesUnmatched(cfg: Config, ops: PathOps, md5: Bytes -> Digest, disk: Disk,
                                  referenceWalk: seq<Listing>, targetWalk: seq<Listing>, p: Path)
    requires var refs := ReferenceHashes(disk, ops, md5, FindMediaFiles(cfg.extensions, ops, referenceWalk));
      FileDigest(disk, ops, md5, p).None? || FileDigest(disk, ops, md5, p).value !in refs
    ensures var (disk', outcome) := CompareRun(cfg, ops, md5, disk, referenceWalk, targetWalk);
      && (ops.abs(p) in disk'.files <==> ops.abs(p) in disk.files)
      && (ops.abs(p) in disk.files ==> disk'.files[ops.abs(p)] == disk.files[ops.abs(p)])
      && (outcome.Completed? ==> forall row :: row in outcome.log ==> ops.abs(row.deletedPath) != ops.abs(p))
  {
    var refs := ReferenceHashes(disk, ops, md5, FindMediaFiles(cfg.extensions, ops, referenceWalk));
    SweepSparesUnmatched(ops, md5, refs, disk, FindMediaFiles(cfg.extensions, ops, targetWalk), p);
  }

  /** The target paths name distinct files: no two of them share an absolute path. */
  predicate DistinctFiles(ops: PathOps, paths: seq<Path>) {
    forall i, j :: 0 <= i < j < |paths| ==> ops.abs(paths[i]) != ops.abs(paths[j])
  }

  /** A file that none of the scanned target paths names is left as it was. */
  lemma {:induction false} SweepLeavesOthers(ops: PathOps, md5: Bytes -> Digest, refs: map<Digest, Path>, disk0: Disk, paths: seq<Path>, q: Path)
    requires forall i :: 0 <= i < |paths| ==> ops.abs(paths[i]) != q
    ensures var st := SweepAll(ops, md5, refs, Sweep(disk0, [], [], 0), paths);
      && (q in st.disk.files <==> q in disk0.files)
      && (q in disk0.files ==> st.disk.files[q] == disk0.files[q])
      && st.disk.unreadable == disk0.unreadable && st.disk.denied == disk0.denied
  {
    if paths != [] {
      var init := paths[..|paths| - 1];
      SweepLeavesOthers(ops, md5, refs, disk0, init, q);
      StepDeletes(ops, md5, refs, SweepAll(ops, md5, refs, Sweep(disk0, [], [], 0), init), paths[|paths| - 1]);
    }
  }

  /**
   * The converse of `SweepRowsFromTargets`: when the target paths name
   * distinct files, every one of them that duplicates an indexed reference
   * file other than itself, and can be removed, is deleted and logged with
   * its kept reference path and its size.
   */
  lemma {:induction false} SweepAllComplete(ops: PathOps, md5: Bytes -> Digest, refs: map<Digest, Path>, disk0: Disk, paths: seq<Path>, p: Path)
    requires DistinctFiles(ops, paths)
    requires p in paths && Deletes(ops, md5, refs, disk0, p)
    ensures var st := SweepAll(ops, md5, refs, Sweep(disk0, [], [], 0), paths);
      var content := disk0.files[ops.abs(p)];
      && p in st.deletedFiles
      && Deletion(p, refs[md5(content)], |content|) in st.log
  {
    var init := paths[..|paths| - 1];
    var last := paths[|paths| - 1];
    var st := SweepAll(ops, md5, refs, Sweep(disk0, [], [], 0), init);
    StepDeletes(ops, md5, refs, st, last);
    assert DistinctFiles(ops, init);
    if p in init {
      SweepAllComplete(ops, md5, refs, disk0, init, p);
    } else {
      assert p == last;
      forall i | 0 <= i < |init| ensures ops.abs(init[i]) != ops.abs(p) {
        assert init[i] == paths[i];
      }
      SweepLeavesOthers(ops, md5, refs, disk0, init, ops.abs(p));
      assert FileDigest(st.disk, ops, md5, p) == FileDigest(disk0, ops, md5, p);
      assert Deletes(ops, md5, refs, st.disk, p);
    }
  }

  /**
   * A whole run deletes every duplicate: with both folders present and the
   * target files distinct, each target media file whose content is indexed
   * under a different reference file, and which can be removed, is deleted
   * and logged.
   */
  lemma CompareRunComplete(cfg: Config, ops: PathOps, md5: Bytes -> Digest, disk: Disk,
                           referenceWalk: seq<Listing>, targetWalk: seq<Listing>, p: Path)
    requires Exists(disk, ops, cfg.referenceDir) && Exists(disk, ops, cfg.targetDir)
    requires DistinctFiles(ops, FindMediaFiles(cfg.extensions, ops, targetWalk))
    requires p in FindMediaFiles(cfg.extensions, ops, targetWalk)
    requires Deletes(ops, md5, ReferenceHashes(disk, ops, md5, FindMediaFiles(cfg.extensions, ops, referenceWalk)), disk, p)
    ensures var outcome := CompareRun(cfg, ops, md5, disk, referenceWalk, targetWalk).1;
      var refs := ReferenceHashes(disk, ops, md5, FindMediaFiles(cfg.extensions, ops, referenceWalk));
      var content := disk.files[ops.abs(p)];
      && outcome.Completed?
      && p in outcome.deletedFiles
      && Deletion(p, refs[md5(content)], |content|) in outcome.log
  {
    var refs := ReferenceHashes(disk, ops, md5, FindMediaFiles(cfg.extensions, ops, referenceWalk));
    SweepAllComplete(ops, md5, refs, disk, FindMediaFiles(cfg.extensions, ops, targetWalk), p);
  }

  // ------------------------------------------------------------ the program

  /** Pass 1: hash every reference media file into `reference_hashes`, counting the successes. */
  method IndexReferences(ops: PathOps, md5: Bytes -> Digest, disk: Disk, paths: seq<Path>)
    returns (referenceHashes: map<Digest, Path>, count: nat)
    ensures referenceHashes == ReferenceHashes(disk, ops, md5, paths)
    ensures count == ReferenceCount(disk, ops, md5, paths)
  {
    referenceHashes, count := map[], 0;
    var i := 0;
    while i < |paths|
      invariant 0 <= i <= |paths|
      invariant referenceHashes == ReferenceHashes(disk, ops, md5, paths[..i])
      invariant count == ReferenceCount(disk, ops, md5, paths[..i])
    {
      assert paths[..i + 1][..i] == paths[..i];
      var fHash;
      ghost var chunks;
      fHash, chunks := HashFile(disk, ops, md5, paths[i]);
      if fHash.Some? {
        referenceHashes := referenceHashes[fHash.value := paths[i]];
        count := count + 1;
      }
      i := i + 1;
    }
    assert paths[..|paths|] == paths;
  }

  /** Pass 2 for one target file: delete it when it duplicates a reference file other than itself. */
  method DeleteIfDuplicate(ops: PathOps, md5: Bytes -> Digest, referenceHashes: map<Digest, Path>, st: Sweep, path: Path)
    returns (st': Sweep)
    ensures st' == SweepStep(ops, md5, referenceHashes, st, path)
  {
    st' := st;
    var fHash;
    ghost var chunks;
    fHash, chunks := HashFile(st.disk, ops, md5, path);
    if fHash.None? || fHash.value !in referenceHashes {
      return;
    }
    var originalPath := referenceHashes[fHash.value];
    if ops.abs(path) == ops.abs(originalPath) {
      return;
    }
    var fileSize := Size(st.disk, ops, path);
    if fileSize.None? {
      return;
    }
    var (disk', removed) := Remove(st.disk, ops, path);
    if !removed {
      return;
    }
    st' := Sweep(disk', st.log + [Deletion(path, originalPath, fileSize.value)],
                 st.deletedFiles + [path], st.deletedSize + fileSize.value);
  }

  /**
   * `main`, given the traversals of the two directories: the result is
   * `CompareRun`, and with it what `CompareRunProperties` proves of that run.
   */
  method CompareAndDelete(cfg: Config, ops: PathOps, md5: Bytes -> Digest, disk: Disk,
                          referenceWalk: seq<Listing>, targetWalk: seq<Listing>)
    returns (disk': Disk, outcome: Outcome)
    ensures (disk', outcome) == CompareRun(cfg, ops, md5, disk, referenceWalk, targetWalk)
    ensures outcome.MissingDirectory? <==> !Exists(disk, ops, cfg.referenceDir) || !Exists(disk, ops, cfg.targetDir)
    ensures outcome.MissingDirectory? ==> disk' == disk
    ensures outcome.Completed? ==>
              var refs := ReferenceHashes(disk, ops, md5, FindMediaFiles(cfg.extensions, ops, referenceWalk));
              SweepInvariant(ops, md5, refs, disk, Sweep(disk', outcome.log, outcome.deletedFiles, outcome.deletedSize))
  {
    CompareRunProperties(cfg, ops, md5, disk, referenceWalk, targetWalk);
    if !Exists(disk, ops, cfg.referenceDir) || !Exists(disk, ops, cfg.targetDir) {
      return disk, MissingDirectory;
    }
    var referenceHashes, count := IndexReferences(ops, md5, disk, FindMediaFiles(cfg.extensions, ops, referenceWalk));
    var targets := FindMediaFiles(cfg.extensions, ops, targetWalk);
    var st := Sweep(disk, [], [], 0);
    var i := 0;
    while i < |targets|
      invariant 0 <= i <= |targets|
      invariant st == SweepAll(ops, md5, referenceHashes, Sweep(disk, [], [], 0), targets[..i])
    {
      assert targets[..i + 1][..i] == targets[..i];
      st := DeleteIfDuplicate(ops, md5, referenceHashes, st, targets[i]);
      i := i + 1;
    }
    assert targets[..|targets|] == targets;
    disk', outcome := st.disk, Completed(st.log, st.deletedFiles, st.deletedSize, count);
  }
}
