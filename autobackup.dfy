/**
 * Single-tree mode (`run_auto_backup`): scan one tree (skipping the backup
 * folder), group the media files by digest, and in every group of two or
 * more keep the record the retention policy ranks first and move the others
 * under the backup folder at their relative path, writing one log row for
 * every member of such a group.
 *
 * The functions below are the specification, defined by the same left-to-
 * right folds as the loops of `RunAutoBackup`; the lemmas state what the
 * source promises about them.
 */
module AutoBackup {
  import opened Wrappers
  import opened FileSystem
  import opened Hashing
  import opened Scanning
  import opened Records
  import opened Retention

  /** `TARGET_DRIVE`, `BACKUP_DIR` and `EXTENSIONS`. */
  datatype Config = Config(targetDrive: Path, backupDir: Path, extensions: set<string>)

  /** A media file met by the scan, before it is hashed. */
  datatype Candidate = Candidate(title: Name, path: Path)

  /** A hashed file: its digest and the record built for it. */
  datatype Entry = Entry(digest: Digest, record: Record)

  /** `files_dict`: digest to records; `order` holds its keys in insertion order, the order `items()` yields. */
  datatype Index = Index(order: seq<Digest>, groups: map<Digest, seq<Record>>)

  // ---------------------------------------------------------------- scanning

  /** `os.path.abspath(root).startswith(os.path.abspath(BACKUP_DIR))` */
  predicate InBackup(cfg: Config, ops: PathOps, root: Path) {
    StartsWith(ops.abs(root), ops.abs(cfg.backupDir))
  }

  /** The media files of one listing, in listing order. */
  function FileCandidates(cfg: Config, ops: PathOps, root: Path, files: seq<Name>): seq<Candidate> {
    if files == [] then []
    else
      var name := files[|files| - 1];
      FileCandidates(cfg, ops, root, files[..|files| - 1])
        + (if IsMedia(cfg.extensions, name) then [Candidate(name, ops.join(root, name))] else [])
  }

  /** The media files of the traversal outside the backup folder, in scan order. */
  function Candidates(cfg: Config, ops: PathOps, walk: seq<Listing>): seq<Candidate> {
    if walk == [] then []
    else
      var l := walk[|walk| - 1];
      Candidates(cfg, ops, walk[..|walk| - 1])
        + (if InBackup(cfg, ops, l.root) then [] else FileCandidates(cfg, ops, l.root, l.files))
  }

  /** The record of a file that hashed to some digest: title, size, path, status 'Keep'. */
  function RecordOf(disk: Disk, ops: PathOps, c: Candidate): Record
    requires ops.abs(c.path) in disk.files
  {
    Record(c.title, |disk.files[ops.abs(c.path)]|, c.path, Keep)
  }

  /** The candidates that hash, with their digests; those that do not are dropped (`if not f_hash: continue`). */
  function Scanned(disk: Disk, ops: PathOps, md5: Bytes -> Digest, cands: seq<Candidate>): seq<Entry> {
    if cands == [] then []
    else
      var c := cands[|cands| - 1];
      Scanned(disk, ops, md5, cands[..|cands| - 1])
        + match FileDigest(disk, ops, md5, c.path)
          case None => []
          case Some(d) => [Entry(d, RecordOf(disk, ops, c))]
  }

  /** `files_dict.setdefault(f_hash, []).append(info)` */
  function Add(idx: Index, e: Entry): Index {
    if e.digest in idx.groups then idx.(groups := idx.groups[e.digest := idx.groups[e.digest] + [e.record]])
    else Index(idx.order + [e.digest], idx.groups[e.digest := [e.record]])
  }

  function Group(entries: seq<Entry>): Index {
    if entries == [] then Index([], map[])
    else Add(Group(entries[..|entries| - 1]), entries[|entries| - 1])
  }

  /** `files_dict` once the scan is complete. */
  function ScanIndex(cfg: Config, disk: Disk, ops: PathOps, md5: Bytes -> Digest, walk: seq<Listing>): Index {
    Group(Scanned(disk, ops, md5, Candidates(cfg, ops, walk)))
  }

  /** The records of `entries` with digest `d`, in order. */
  function RecordsWith(entries: seq<Entry>, d: Digest): seq<Record> {
    if entries == [] then []
    else
      var e := entries[|entries| - 1];
      RecordsWith(entries[..|entries| - 1], d) + (if e.digest == d then [e.record] else [])
  }

  predicate Distinct(s: seq<Digest>) {
    forall i, j :: 0 <= i < j < |s| ==> s[i] != s[j]
  }

  // ------------------------------------------------------------- resolution

  /** What phase 2 has produced so far: the disk, the CSV rows, `move_queue` and `total_moved_size`. */
  datatype RunState = RunState(disk: Disk, log: seq<Record>, moved: seq<Record>, movedSize: nat)

  /** `os.path.join(BACKUP_DIR, os.path.relpath(path, TARGET_DRIVE))` */
  function Destination(cfg: Config, ops: PathOps, path: Path): Path {
    ops.join(cfg.backupDir, ops.rel(path, cfg.targetDrive))
  }

  /**
   * One member of a duplicate group. The keeper is only logged. Any other
   * member gets status 'Move to Backup' before the move is tried; a move that
   * succeeds adds the member to `move_queue` and its size to the total; a
   * failed move changes neither. Either way the member is logged.
   */
  function Handle(cfg: Config, ops: PathOps, st: RunState, rec: Record, keep: bool): (r: RunState)
    ensures keep ==> r == st.(log := st.log + [rec])
    ensures !keep ==> r.log == st.log + [rec.(status := MoveToBackup)]
    ensures !keep && CanMove(st.disk, ops, rec.path, Destination(cfg, ops, rec.path)) ==>
              && r.moved == st.moved + [rec.(status := MoveToBackup)]
              && r.movedSize == st.movedSize + rec.size
              && r.disk == Move(st.disk, ops, rec.path, Destination(cfg, ops, rec.path)).0
    ensures !keep && !CanMove(st.disk, ops, rec.path, Destination(cfg, ops, rec.path)) ==>
              r.moved == st.moved && r.movedSize == st.movedSize && r.disk == st.disk
  {
    if keep then
      st.(log := st.log + [rec])
    else
      var item := rec.(status := MoveToBackup);
      var (disk', ok) := Move(st.disk, ops, rec.path, Destination(cfg, ops, rec.path));
      if ok then RunState(disk', st.log + [item], st.moved + [item], st.movedSize + rec.size)
      else st.(log := st.log + [item])
  }

  /** The members of a sorted group in order; index 0 is the keeper. */
  function HandleMembers(cfg: Config, ops: PathOps, st: RunState, g: seq<Record>): RunState {
    if g == [] then st
    else Handle(cfg, ops, HandleMembers(cfg, ops, st, g[..|g| - 1]), g[|g| - 1], |g| - 1 == 0)
  }

  /** One group: only a group of two or more is sorted and acted on. */
  function HandleGroup(cfg: Config, ops: PathOps, st: RunState, g: seq<Record>): RunState {
    if |g| > 1 then HandleMembers(cfg, ops, st, RetentionSort(g)) else st
  }

  function HandleGroups(cfg: Config, ops: PathOps, st: RunState, idx: Index, order: seq<Digest>): RunState
    requires forall d :: d in order ==> d in idx.groups
  {
    if order == [] then st
    else HandleGroup(cfg, ops, HandleGroups(cfg, ops, st, idx, order[..|order| - 1]), idx.groups[order[|order| - 1]])
  }

  /** The rows written for a sorted group: the keeper as it is, every other member marked 'Move to Backup'. */
  function Classify(g: seq<Record>): seq<Record> {
    seq(|g|, i requires 0 <= i < |g| => if i == 0 then g[0] else g[i].(status := MoveToBackup))
  }

  /** The rows of a group: none for a group of one. */
  function GroupRows(g: seq<Record>): seq<Record> {
    if |g| > 1 then Classify(RetentionSort(g)) else []
  }

  /** The whole CSV body for the groups listed in `order`. */
  function ExpectedLog(idx: Index, order: seq<Digest>): seq<Record>
    requires forall d :: d in order ==> d in idx.groups
  {
    if order == [] then []
    else ExpectedLog(idx, order[..|order| - 1]) + GroupRows(idx.groups[order[|order| - 1]])
  }

  /** A whole run of `run_auto_backup`: scan, then resolve the groups in `files_dict` order. */
  function AutoBackupRun(cfg: Config, ops: PathOps, md5: Bytes -> Digest, disk: Disk, walk: seq<Listing>): RunState {
    var idx := ScanIndex(cfg, disk, ops, md5, walk);
    GroupWellFormed(Scanned(disk, ops, md5, Candidates(cfg, ops, walk)));
    HandleGroups(cfg, ops, RunState(disk, [], [], 0), idx, idx.order)
  }

  // ------------------------------------------------------------ scan lemmas

  lemma {:induction false} FileCandidatesSound(cfg: Config, ops: PathOps, root: Path, files: seq<Name>, c: Candidate)
    requires c in FileCandidates(cfg, ops, root, files)
    ensures exists j :: 0 <= j < |files| && IsMedia(cfg.extensions, files[j]) && c == Candidate(files[j], ops.join(root, files[j]))
  {
    var init := files[..|files| - 1];
    if c in FileCandidates(cfg, ops, root, init) {
      FileCandidatesSound(cfg, ops, root, init, c);
      var j :| 0 <= j < |init| && IsMedia(cfg.extensions, init[j]) && c == Candidate(init[j], ops.join(root, init[j]));
      assert files[j] == init[j];
    } else {
      assert c == Candidate(files[|files| - 1], ops.join(root, files[|files| - 1]));
    }
  }

  lemma {:induction false} FileCandidatesComplete(cfg: Config, ops: PathOps, root: Path, files: seq<Name>, j: nat)
    requires j < |files| && IsMedia(cfg.extensions, files[j])
    ensures Candidate(files[j], ops.join(root, files[j])) in FileCandidates(cfg, ops, root, files)
  {
    var init := files[..|files| - 1];
    if j < |init| {
      assert init[j] == files[j];
      FileCandidatesComplete(cfg, ops, root, init, j);
    }
  }

  /**
   * Every candidate is a media file (lower-cased suffix in the extensions) of
   * a listing whose root is not under the backup folder.
   */
  lemma {:induction false} CandidatesSound(cfg: Config, ops: PathOps, walk: seq<Listing>, c: Candidate)
    requires c in Candidates(cfg, ops, walk)
    ensures exists k, j :: 0 <= k < |walk| && 0 <= j < |walk[k].files| && !InBackup(cfg, ops, walk[k].root)
                           && IsMedia(cfg.extensions, walk[k].files[j])
                           && c == Candidate(walk[k].files[j], ops.join(walk[k].root, walk[k].files[j]))
  {
    var init := walk[..|walk| - 1];
    var l := walk[|walk| - 1];
    if c in Candidates(cfg, ops, init) {
      CandidatesSound(cfg, ops, init, c);
      var k, j :| 0 <= k < |init| && 0 <= j < |init[k].files| && !InBackup(cfg, ops, init[k].root)
                  && IsMedia(cfg.extensions, init[k].files[j])
                  && c == Candidate(init[k].files[j], ops.join(init[k].root, init[k].files[j]));
      assert walk[k] == init[k];
    } else {
      FileCandidatesSound(cfg, ops, l.root, l.files, c);
    }
  }

  /** Every media file of a listing outside the backup folder is a candidate. */
  lemma {:induction false} CandidatesComplete(cfg: Config, ops: PathOps, walk: seq<Listing>, k: nat, j: nat)
    requires k < |walk| && j < |walk[k].files| && !InBackup(cfg, ops, walk[k].root) && IsMedia(cfg.extensions, walk[k].files[j])
    ensures Candidate(walk[k].files[j], ops.join(walk[k].root, walk[k].files[j])) in Candidates(cfg, ops, walk)
  {
    var init := walk[..|walk| - 1];
    if k < |init| {
      assert init[k] == walk[k];
      CandidatesComplete(cfg, ops, init, k, j);
    } else {
      FileCandidatesComplete(cfg, ops, walk[k].root, walk[k].files, j);
    }
  }

  /** A hashed entry comes from a candidate whose hash is that digest. */
  lemma {:induction false} ScannedSound(disk: Disk, ops: PathOps, md5: Bytes -> Digest, cands: seq<Candidate>, e: Entry)
    requires e in Scanned(disk, ops, md5, cands)
    ensures exists c :: c in cands && FileDigest(disk, ops, md5, c.path) == Some(e.digest)
                        && ops.abs(c.path) in disk.files && e.record == RecordOf(disk, ops, c)
  {
    var init := cands[..|cands| - 1];
    var c := cands[|cands| - 1];
    if e in Scanned(disk, ops, md5, init) {
      ScannedSound(disk, ops, md5, init, e);
      var c' :| c' in init && FileDigest(disk, ops, md5, c'.path) == Some(e.digest)
                && ops.abs(c'.path) in disk.files && e.record == RecordOf(disk, ops, c');
      assert c' in cands;
    }
  }

  /** Every candidate that hashes has its entry. */
  lemma {:induction false} ScannedComplete(disk: Disk, ops: PathOps, md5: Bytes -> Digest, cands: seq<Candidate>, c: Candidate)
    requires c in cands && FileDigest(disk, ops, md5, c.path).Some?
    ensures ops.abs(c.path) in disk.files
    ensures Entry(FileDigest(disk, ops, md5, c.path).value, RecordOf(disk, ops, c)) in Scanned(disk, ops, md5, cands)
  {
    var init := cands[..|cands| - 1];
    if c != cands[|cands| - 1] {
      ScannedComplete(disk, ops, md5, init, c);
    }
  }

  ghost predicate WellFormed(idx: Index) {
    && Distinct(idx.order)
    && (forall d :: d in idx.order <==> d in idx.groups)
  }

  lemma {:induction false} GroupWellFormed(entries: seq<Entry>)
    ensures WellFormed(Group(entries))
  {
    if entries != [] {
      GroupWellFormed(entries[..|entries| - 1]);
    }
  }

  /**
   * `files_dict` after the scan: a digest has a group exactly when some entry
   * has that digest, and its group is the records with that digest in scan
   * order (so every entry is in exactly the group of its own digest).
   */
  lemma {:induction false} GroupContents(entries: seq<Entry>, d: Digest)
    ensures d in Group(entries).groups <==> RecordsWith(entries, d) != []
    ensures d in Group(entries).groups ==> Group(entries).groups[d] == RecordsWith(entries, d)
  {
    if entries != [] {
      GroupContents(entries[..|entries| - 1], d);
    }
  }

  lemma {:induction false} RecordsWithMembers(entries: seq<Entry>, d: Digest, r: Record)
    ensures r in RecordsWith(entries, d) <==> Entry(d, r) in entries
  {
    if entries != [] {
      var init := entries[..|entries| - 1];
      RecordsWithMembers(init, d, r);
      assert entries == init + [entries[|entries| - 1]];
    }
  }

  /**
   * A grouped record has status 'Keep' and is a candidate (a media file
   * outside the backup folder) whose hash is the group's digest; so a file
   * whose hash fails is in no group.
   */
  lemma GroupedRecordHashed(cfg: Config, disk: Disk, ops: PathOps, md5: Bytes -> Digest, walk: seq<Listing>, d: Digest, r: Record)
    requires d in ScanIndex(cfg, disk, ops, md5, walk).groups && r in ScanIndex(cfg, disk, ops, md5, walk).groups[d]
    ensures r.status == Keep
    ensures FileDigest(disk, ops, md5, r.path) == Some(d)
    ensures Candidate(r.title, r.path) in Candidates(cfg, ops, walk)
  {
    var entries := Scanned(disk, ops, md5, Candidates(cfg, ops, walk));
    GroupContents(entries, d);
    RecordsWithMembers(entries, d, r);
    ScannedSound(disk, ops, md5, Candidates(cfg, ops, walk), Entry(d, r));
  }

  /** Every candidate that hashes is in the group of its digest. */
  lemma HashedCandidateGrouped(cfg: Config, disk: Disk, ops: PathOps, md5: Bytes -> Digest, walk: seq<Listing>, c: Candidate)
    requires c in Candidates(cfg, ops, walk) && FileDigest(disk, ops, md5, c.path).Some?
    ensures ops.abs(c.path) in disk.files
    ensures var idx := ScanIndex(cfg, disk, ops, md5, walk);
            var d := FileDigest(disk, ops, md5, c.path).value;
            d in idx.groups && RecordOf(disk, ops, c) in idx.groups[d]
  {
    var entries := Scanned(disk, ops, md5, Candidates(cfg, ops, walk));
    var d := FileDigest(disk, ops, md5, c.path).value;
    ScannedComplete(disk, ops, md5, Candidates(cfg, ops, walk), c);
    RecordsWithMembers(entries, d, RecordOf(disk, ops, c));
    GroupContents(entries, d);
  }

  // ------------------------------------------------------ resolution lemmas

  /** Handling a sorted group writes exactly its classified rows, whatever the moves do. */
  lemma {:induction false} HandleMembersLog(cfg: Config, ops: PathOps, st: RunState, g: seq<Record>)
    ensures HandleMembers(cfg, ops, st, g).log == st.log + Classify(g)
  {
    if g != [] {
      var init := g[..|g| - 1];
      HandleMembersLog(cfg, ops, st, init);
      assert Classify(g) == Classify(init) + [Classify(g)[|g| - 1]];
    }
  }

  /** The CSV body of the run is fixed by the groups alone: moves that fail change no row. */
  lemma {:induction false} HandleGroupsLog(cfg: Config, ops: PathOps, st: RunState, idx: Index, order: seq<Digest>)
    requires forall d :: d in order ==> d in idx.groups
    ensures HandleGroups(cfg, ops, st, idx, order).log == st.log + ExpectedLog(idx, order)
  {
    if order != [] {
      var init := order[..|order| - 1];
      HandleGroupsLog(cfg, ops, st, idx, init);
      var before := HandleGroups(cfg, ops, st, idx, init);
      var g := idx.groups[order[|order| - 1]];
      assert HandleGroups(cfg, ops, st, idx, order) == HandleGroup(cfg, ops, before, g);
      assert ExpectedLog(idx, order) == ExpectedLog(idx, init) + GroupRows(g);
      if |g| > 1 {
        HandleMembersLog(cfg, ops, before, RetentionSort(g));
      }
    }
  }

  /**
   * A group of N >= 2 scanned records (all 'Keep') yields N rows: the first,
   * the keeper, with status 'Keep', the other N - 1 with 'Move to Backup';
   * each row is a member of the group and each member has a row. A group of
   * one yields no row.
   */
  lemma GroupRowsStatus(g: seq<Record>)
    requires forall r :: r in g ==> r.status == Keep
    ensures |g| <= 1 ==> GroupRows(g) == []
    ensures |g| > 1 ==> |GroupRows(g)| == |g|
    ensures forall i :: 0 <= i < |GroupRows(g)| ==> (GroupRows(g)[i].status == Keep <==> i == 0)
    ensures forall i :: 0 <= i < |GroupRows(g)| ==> GroupRows(g)[i].(status := Keep) in g
    ensures |g| > 1 ==> GroupRows(g)[0] == RetentionSort(g)[0]
    ensures |g| > 1 ==> forall m :: m in g ==> exists i :: 0 <= i < |GroupRows(g)| && GroupRows(g)[i].(status := Keep) == m
  {
    if |g| > 1 {
      var sorted := RetentionSort(g);
      forall i | 0 <= i < |sorted| ensures sorted[i] in g && sorted[i].status == Keep {
        assert sorted[i] in multiset(sorted);
      }
      assert forall i :: 0 <= i < |sorted| ==> Classify(sorted)[i].(status := Keep) == sorted[i];
      forall m | m in g ensures exists i :: 0 <= i < |GroupRows(g)| && GroupRows(g)[i].(status := Keep) == m {
        assert m in multiset(sorted);
        var i :| 0 <= i < |sorted| && sorted[i] == m;
        assert GroupRows(g)[i].(status := Keep) == m;
      }
    }
  }

  /** The accounting invariant of phase 2: the total is the size of what was moved, and every moved record was logged as moved. */
  ghost predicate Accounted(st: RunState) {
    && st.movedSize == SumSizes(st.moved)
    && forall r :: r in st.moved ==> r in st.log && r.status == MoveToBackup
  }

  lemma {:induction false} HandleMembersAccounted(cfg: Config, ops: PathOps, st: RunState, g: seq<Record>)
    requires Accounted(st)
    ensures Accounted(HandleMembers(cfg, ops, st, g))
  {
    if g != [] {
      var before := HandleMembers(cfg, ops, st, g[..|g| - 1]);
      HandleMembersAccounted(cfg, ops, st, g[..|g| - 1]);
      var after := HandleMembers(cfg, ops, st, g);
      if after.moved != before.moved {
        assert after.moved[..|after.moved| - 1] == before.moved;
      }
    }
  }

  /** `total_moved_size` stays the sum of the sizes in `move_queue`, and `move_queue` only holds logged moved members. */
  lemma {:induction false} HandleGroupsAccounted(cfg: Config, ops: PathOps, st: RunState, idx: Index, order: seq<Digest>)
    requires forall d :: d in order ==> d in idx.groups
    requires Accounted(st)
    ensures Accounted(HandleGroups(cfg, ops, st, idx, order))
  {
    if order != [] {
      var init := order[..|order| - 1];
      HandleGroupsAccounted(cfg, ops, st, idx, init);
      var g := idx.groups[order[|order| - 1]];
      if |g| > 1 {
        HandleMembersAccounted(cfg, ops, HandleGroups(cfg, ops, st, idx, init), RetentionSort(g));
      }
    }
  }

  /**
   * A file that no moved member of a sorted group is, and that no destination
   * of those members names, is untouched by the group: in particular the
   * keeper, when it is such a file, stays where it is with its content.
   */
  lemma {:induction false} UntouchedByGroup(cfg: Config, ops: PathOps, st: RunState, g: seq<Record>, p: Path)
    requires forall i :: 1 <= i < |g| ==> ops.abs(g[i].path) != p && ops.abs(Destination(cfg, ops, g[i].path)) != p
    ensures var r := HandleMembers(cfg, ops, st, g);
      && (p in r.disk.files <==> p in st.disk.files)
      && (p in st.disk.files ==> r.disk.files[p] == st.disk.files[p])
  {
    if g != [] {
      UntouchedByGroup(cfg, ops, st, g[..|g| - 1], p);
    }
  }

  /** Every row of a group is a member of it, up to its status. */
  lemma RowIsMember(g: seq<Record>, r: Record)
    requires r in GroupRows(g)
    ensures exists m :: m in g && m.(status := r.status) == r
  {
    var sorted := RetentionSort(g);
    var i :| 0 <= i < |sorted| && Classify(sorted)[i] == r;
    assert sorted[i] in multiset(sorted);
    assert sorted[i].(status := r.status) == r;
  }

  lemma {:induction false} ExpectedLogRows(idx: Index, order: seq<Digest>, r: Record)
    requires forall d :: d in order ==> d in idx.groups
    requires r in ExpectedLog(idx, order)
    ensures exists d, m :: d in order && |idx.groups[d]| > 1 && m in idx.groups[d] && m.(status := r.status) == r
  {
    var init := order[..|order| - 1];
    var last := order[|order| - 1];
    if r in ExpectedLog(idx, init) {
      ExpectedLogRows(idx, init, r);
      var d, m :| d in init && |idx.groups[d]| > 1 && m in idx.groups[d] && m.(status := r.status) == r;
      assert d in order;
    } else {
      RowIsMember(idx.groups[last], r);
    }
  }

  /** The rows of every group listed in `order` are rows of the CSV body. */
  lemma {:induction false} ExpectedLogHasGroup(idx: Index, order: seq<Digest>, d: Digest, r: Record)
    requires forall d :: d in order ==> d in idx.groups
    requires d in order && r in GroupRows(idx.groups[d])
    ensures r in ExpectedLog(idx, order)
  {
    var init := order[..|order| - 1];
    if d != order[|order| - 1] {
      ExpectedLogHasGroup(idx, init, d, r);
    }
  }

  /**
   * The converse of `RunRowHashed`: every member of a group of two or more
   * is logged, with its status set by its place in the sorted group.
   */
  lemma RunLogsEveryMember(cfg: Config, ops: PathOps, md5: Bytes -> Digest, disk: Disk, walk: seq<Listing>, d: Digest, m: Record)
    requires var idx := ScanIndex(cfg, disk, ops, md5, walk); d in idx.groups && |idx.groups[d]| > 1 && m in idx.groups[d]
    ensures exists r :: r in AutoBackupRun(cfg, ops, md5, disk, walk).log && r.(status := Keep) == m
  {
    var idx := ScanIndex(cfg, disk, ops, md5, walk);
    RunLogAndAccounting(cfg, ops, md5, disk, walk);
    var g := idx.groups[d];
    forall r | r in g ensures r.status == Keep {
      GroupedRecordHashed(cfg, disk, ops, md5, walk, d, r);
    }
    GroupRowsStatus(g);
    var i :| 0 <= i < |GroupRows(g)| && GroupRows(g)[i].(status := Keep) == m;
    ExpectedLogHasGroup(idx, idx.order, d, GroupRows(g)[i]);
  }

  /**
   * A whole run: the rows are exactly those of the duplicate groups in
   * `files_dict` order; `total_moved_size` is the sum of the sizes in
   * `move_queue`; every member of `move_queue` was logged as 'Move to Backup'.
   */
  lemma RunLogAndAccounting(cfg: Config, ops: PathOps, md5: Bytes -> Digest, disk: Disk, walk: seq<Listing>)
    ensures WellFormed(ScanIndex(cfg, disk, ops, md5, walk))
    ensures AutoBackupRun(cfg, ops, md5, disk, walk).log
              == ExpectedLog(ScanIndex(cfg, disk, ops, md5, walk), ScanIndex(cfg, disk, ops, md5, walk).order)
    ensures Accounted(AutoBackupRun(cfg, ops, md5, disk, walk))
  {
    var idx := ScanIndex(cfg, disk, ops, md5, walk);
    GroupWellFormed(Scanned(disk, ops, md5, Candidates(cfg, ops, walk)));
    var st0 := RunState(disk, [], [], 0);
    assert AutoBackupRun(cfg, ops, md5, disk, walk) == HandleGroups(cfg, ops, st0, idx, idx.order);
    HandleGroupsLog(cfg, ops, st0, idx, idx.order);
    HandleGroupsAccounted(cfg, ops, st0, idx, idx.order);
  }

  /**
   * Every row of a run is a scanned member of a group of two or more, whose
   * file hashed: a file whose hash failed is never logged, and so never moved.
   */
  lemma RunRowHashed(cfg: Config, ops: PathOps, md5: Bytes -> Digest, disk: Disk, walk: seq<Listing>, r: Record)
    requires r in AutoBackupRun(cfg, ops, md5, disk, walk).log
    ensures FileDigest(disk, ops, md5, r.path).Some?
    ensures Candidate(r.title, r.path) in Candidates(cfg, ops, walk)
    ensures var idx := ScanIndex(cfg, disk, ops, md5, walk);
            FileDigest(disk, ops, md5, r.path).value in idx.groups
            && |idx.groups[FileDigest(disk, ops, md5, r.path).value]| > 1
  {
    var idx := ScanIndex(cfg, disk, ops, md5, walk);
    RunLogAndAccounting(cfg, ops, md5, disk, walk);
    ExpectedLogRows(idx, idx.order, r);
    var d, m :| d in idx.order && |idx.groups[d]| > 1 && m in idx.groups[d] && m.(status := r.status) == r;
    GroupedRecordHashed(cfg, disk, ops, md5, walk, d, m);
  }

  /** No row logged as moved names the file at absolute path `p`, neither as its source nor as its destination. */
  predicate Untouched(cfg: Config, ops: PathOps, rows: seq<Record>, p: Path) {
    forall r :: r in rows && r.status == MoveToBackup ==>
      ops.abs(r.path) != p && ops.abs(Destination(cfg, ops, r.path)) != p
  }

  /** Groups in `files_dict` order leave alone every file that none of their moved rows names. */
  lemma {:induction false} HandleGroupsUntouched(cfg: Config, ops: PathOps, st: RunState, idx: Index, order: seq<Digest>, p: Path)
    requires forall d :: d in order ==> d in idx.groups
    requires Untouched(cfg, ops, ExpectedLog(idx, order), p)
    ensures var r := HandleGroups(cfg, ops, st, idx, order);
      && (p in r.disk.files <==> p in st.disk.files)
      && (p in st.disk.files ==> r.disk.files[p] == st.disk.files[p])
  {
    if order != [] {
      var init := order[..|order| - 1];
      var g := idx.groups[order[|order| - 1]];
      assert ExpectedLog(idx, order) == ExpectedLog(idx, init) + GroupRows(g);
      HandleGroupsUntouched(cfg, ops, st, idx, init, p);
      if |g| > 1 {
        var sorted := RetentionSort(g);
        forall i | 1 <= i < |sorted|
          ensures ops.abs(sorted[i].path) != p && ops.abs(Destination(cfg, ops, sorted[i].path)) != p
        {
          assert Classify(sorted)[i] in GroupRows(g);
        }
        UntouchedByGroup(cfg, ops, HandleGroups(cfg, ops, st, idx, init), sorted, p);
      }
    }
  }

  /**
   * A whole run changes only the files its moved rows name: a file that is
   * neither the source nor the destination of a row logged as moved is
   * present afterwards exactly when it was before, with the same content.
   */
  lemma RunUntouched(cfg: Config, ops: PathOps, md5: Bytes -> Digest, disk: Disk, walk: seq<Listing>, p: Path)
    requires Untouched(cfg, ops, AutoBackupRun(cfg, ops, md5, disk, walk).log, p)
    ensures var r := AutoBackupRun(cfg, ops, md5, disk, walk);
      && (p in r.disk.files <==> p in disk.files)
      && (p in disk.files ==> r.disk.files[p] == disk.files[p])
  {
    var idx := ScanIndex(cfg, disk, ops, md5, walk);
    RunLogAndAccounting(cfg, ops, md5, disk, walk);
    HandleGroupsUntouched(cfg, ops, RunState(disk, [], [], 0), idx, idx.order, p);
  }

  /**
   * Every keeper stays where it was with its content, unless a moved row
   * reaches its absolute path (another spelling of it, or a destination).
   */
  lemma KeeperStays(cfg: Config, ops: PathOps, md5: Bytes -> Digest, disk: Disk, walk: seq<Listing>, r: Record)
    requires r in AutoBackupRun(cfg, ops, md5, disk, walk).log && r.status == Keep
    requires Untouched(cfg, ops, AutoBackupRun(cfg, ops, md5, disk, walk).log, ops.abs(r.path))
    ensures ops.abs(r.path) in disk.files
    ensures var after := AutoBackupRun(cfg, ops, md5, disk, walk).disk;
      ops.abs(r.path) in after.files && after.files[ops.abs(r.path)] == disk.files[ops.abs(r.path)]
  {
    RunRowHashed(cfg, ops, md5, disk, walk, r);
    RunUntouched(cfg, ops, md5, disk, walk, ops.abs(r.path));
  }

  // ------------------------------------------------------------ the script

  lemma FileCandidatesSnoc(cfg: Config, ops: PathOps, root: Path, files: seq<Name>, j: nat)
    requires j < |files|
    ensures FileCandidates(cfg, ops, root, files[..j + 1]) == FileCandidates(cfg, ops, root, files[..j])
              + (if IsMedia(cfg.extensions, files[j]) then [Candidate(files[j], ops.join(root, files[j]))] else [])
  {
    assert files[..j + 1][..j] == files[..j];
  }

  lemma ScannedSnoc(disk: Disk, ops: PathOps, md5: Bytes -> Digest, cands: seq<Candidate>, c: Candidate)
    ensures FileDigest(disk, ops, md5, c.path).None? ==> Scanned(disk, ops, md5, cands + [c]) == Scanned(disk, ops, md5, cands)
    ensures FileDigest(disk, ops, md5, c.path).Some? ==>
              Scanned(disk, ops, md5, cands + [c])
                == Scanned(disk, ops, md5, cands) + [Entry(FileDigest(disk, ops, md5, c.path).value, RecordOf(disk, ops, c))]
  {
    assert (cands + [c])[..|cands|] == cands;
  }

  lemma GroupSnoc(entries: seq<Entry>, e: Entry)
    ensures Group(entries + [e]) == Add(Group(entries), e)
  {
    assert (entries + [e])[..|entries|] == entries;
  }

  /** One file of a listing: if it is a media file that hashes, append its record to the group of its digest. */
  method ScanFile(cfg: Config, ops: PathOps, md5: Bytes -> Digest, disk: Disk, listing: Listing, j: nat,
                  order0: seq<Digest>, groups0: map<Digest, seq<Record>>, ghost before: seq<Candidate>, ghost cands0: seq<Candidate>)
    returns (order: seq<Digest>, groups: map<Digest, seq<Record>>, ghost cands: seq<Candidate>)
    requires j < |listing.files|
    requires cands0 == before + FileCandidates(cfg, ops, listing.root, listing.files[..j])
    requires Index(order0, groups0) == Group(Scanned(disk, ops, md5, cands0))
    ensures cands == before + FileCandidates(cfg, ops, listing.root, listing.files[..j + 1])
    ensures Index(order, groups) == Group(Scanned(disk, ops, md5, cands))
  {
    var root, file := listing.root, listing.files[j];
    FileCandidatesSnoc(cfg, ops, root, listing.files, j);
    order, groups, cands := order0, groups0, cands0;
    if IsMedia(cfg.extensions, file) {
      var path := ops.join(root, file);
      var fHash, _ := HashFile(disk, ops, md5, path);
      var c := Candidate(file, path);
      ScannedSnoc(disk, ops, md5, cands, c);
      if fHash.Some? {
        var info := Record(file, Size(disk, ops, path).value, path, Keep);
        GroupSnoc(Scanned(disk, ops, md5, cands), Entry(fHash.value, info));
        if fHash.value in groups {
          groups := groups[fHash.value := groups[fHash.value] + [info]];
        } else {
          order := order + [fHash.value];
          groups := groups[fHash.value := [info]];
        }
      }
      cands := cands + [c];
    } else {
      assert cands0 + [] == cands0;
    }
  }

  /** The inner scan loop over the files of one listing outside the backup folder. */
  method ScanListing(cfg: Config, ops: PathOps, md5: Bytes -> Digest, disk: Disk, listing: Listing,
                     order0: seq<Digest>, groups0: map<Digest, seq<Record>>, ghost cands0: seq<Candidate>)
    returns (order: seq<Digest>, groups: map<Digest, seq<Record>>, ghost cands: seq<Candidate>)
    requires Index(order0, groups0) == Group(Scanned(disk, ops, md5, cands0))
    ensures cands == cands0 + FileCandidates(cfg, ops, listing.root, listing.files)
    ensures Index(order, groups) == Group(Scanned(disk, ops, md5, cands))
  {
    order, groups, cands := order0, groups0, cands0;
    assert listing.files[..0] == [];
    assert cands0 + [] == cands0;
    var j := 0;
    while j < |listing.files|
      invariant 0 <= j <= |listing.files|
      invariant cands == cands0 + FileCandidates(cfg, ops, listing.root, listing.files[..j])
      invariant Index(order, groups) == Group(Scanned(disk, ops, md5, cands))
    {
      order, groups, cands := ScanFile(cfg, ops, md5, disk, listing, j, order, groups, cands0, cands);
      j := j + 1;
    }
    assert listing.files[..|listing.files|] == listing.files;
  }

  /** Step 1 of the script: the scan, building `files_dict` (keys in insertion order). */
  method ScanTree(cfg: Config, ops: PathOps, md5: Bytes -> Digest, disk: Disk, walk: seq<Listing>)
    returns (order: seq<Digest>, groups: map<Digest, seq<Record>>)
    ensures Index(order, groups) == ScanIndex(cfg, disk, ops, md5, walk)
  {
    order, groups := [], map[];
    ghost var cands: seq<Candidate> := [];
    var i := 0;
    while i < |walk|
      invariant 0 <= i <= |walk|
      invariant cands == Candidates(cfg, ops, walk[..i])
      invariant Index(order, groups) == Group(Scanned(disk, ops, md5, cands))
    {
      var listing := walk[i];
      assert walk[..i + 1][..i] == walk[..i];
      // skip the backup directory
      if !StartsWith(ops.abs(listing.root), ops.abs(cfg.backupDir)) {
        order, groups, cands := ScanListing(cfg, ops, md5, disk, listing, order, groups, cands);
      }
      i := i + 1;
    }
    assert walk[..|walk|] == walk;
  }

  /** Sort one duplicate group, then keep its first member and try to move every other one. */
  method ResolveGroup(cfg: Config, ops: PathOps, st: RunState, infoList0: seq<Record>)
    returns (disk': Disk, log: seq<Record>, moveQueue: seq<Record>, totalMovedSize: nat)
    requires |infoList0| > 1
    ensures RunState(disk', log, moveQueue, totalMovedSize) == HandleGroup(cfg, ops, st, infoList0)
  {
    var infoList := RetentionSort(infoList0);
    disk', log, moveQueue, totalMovedSize := st.disk, st.log, st.moved, st.movedSize;
    var m := 0;
    while m < |infoList|
      invariant 0 <= m <= |infoList|
      invariant RunState(disk', log, moveQueue, totalMovedSize) == HandleMembers(cfg, ops, st, infoList[..m])
    {
      assert infoList[..m + 1][..m] == infoList[..m];
      var item := infoList[m];
      if m > 0 {
        item := item.(status := MoveToBackup);
        var relPath := ops.rel(item.path, cfg.targetDrive);
        var destPath := ops.join(cfg.backupDir, relPath);
        var result := Move(disk', ops, item.path, destPath);
        if result.1 {
          disk' := result.0;
          totalMovedSize := totalMovedSize + item.size;
          moveQueue := moveQueue + [item];
        }
      }
      log := log + [item];
      m := m + 1;
    }
    assert infoList[..|infoList|] == infoList;
  }

  /** The resolution loop of `run_auto_backup`: every group of `files_dict`, in key order. */
  method ResolveGroups(cfg: Config, ops: PathOps, disk: Disk, order: seq<Digest>, groups: map<Digest, seq<Record>>)
    returns (disk': Disk, log: seq<Record>, moveQueue: seq<Record>, totalMovedSize: nat)
    requires forall d :: d in order ==> d in groups
    ensures RunState(disk', log, moveQueue, totalMovedSize)
              == HandleGroups(cfg, ops, RunState(disk, [], [], 0), Index(order, groups), order)
  {
    ghost var idx := Index(order, groups);
    ghost var st0 := RunState(disk, [], [], 0);
    disk', log, moveQueue, totalMovedSize := disk, [], [], 0;
    var k := 0;
    while k < |order|
      invariant 0 <= k <= |order|
      invariant RunState(disk', log, moveQueue, totalMovedSize) == HandleGroups(cfg, ops, st0, idx, order[..k])
    {
      assert order[..k + 1][..k] == order[..k];
      var infoList := groups[order[k]];
      if |infoList| > 1 {
        disk', log, moveQueue, totalMovedSize :=
          ResolveGroup(cfg, ops, RunState(disk', log, moveQueue, totalMovedSize), infoList);
      }
      k := k + 1;
    }
    assert order[..|order|] == order;
  }

  /**
   * What a whole run guarantees: `total_moved_size` is the sum of the sizes
   * in `move_queue`; every moved record was logged as 'Move to Backup'; every
   * logged file hashed; and every file no moved row names is unchanged.
   */
  lemma RunOutcome(cfg: Config, ops: PathOps, md5: Bytes -> Digest, disk: Disk, walk: seq<Listing>)
    ensures var r := AutoBackupRun(cfg, ops, md5, disk, walk);
      && r.movedSize == SumSizes(r.moved)
      && (forall m :: m in r.moved ==> m in r.log && m.status == MoveToBackup)
      && (forall m :: m in r.log ==> FileDigest(disk, ops, md5, m.path).Some?)
      && (forall p :: Untouched(cfg, ops, r.log, p) ==>
            (p in r.disk.files <==> p in disk.files) && (p in disk.files ==> r.disk.files[p] == disk.files[p]))
  {
    var r := AutoBackupRun(cfg, ops, md5, disk, walk);
    RunLogAndAccounting(cfg, ops, md5, disk, walk);
    forall m | m in r.log ensures FileDigest(disk, ops, md5, m.path).Some? {
      RunRowHashed(cfg, ops, md5, disk, walk, m);
    }
    forall p | Untouched(cfg, ops, r.log, p)
      ensures (p in r.disk.files <==> p in disk.files) && (p in disk.files ==> r.disk.files[p] == disk.files[p])
    {
      RunUntouched(cfg, ops, md5, disk, walk, p);
    }
  }

  /**
   * `run_auto_backup()`: returns the disk afterwards, the CSV rows,
   * `move_queue` and `total_moved_size`.
   */
  method RunAutoBackup(cfg: Config, ops: PathOps, md5: Bytes -> Digest, disk: Disk, walk: seq<Listing>)
    returns (disk': Disk, log: seq<Record>, moveQueue: seq<Record>, totalMovedSize: nat)
    ensures RunState(disk', log, moveQueue, totalMovedSize) == AutoBackupRun(cfg, ops, md5, disk, walk)
    ensures totalMovedSize == SumSizes(moveQueue)
    ensures forall r :: r in moveQueue ==> r in log && r.status == MoveToBackup
    ensures forall r :: r in log ==> FileDigest(disk, ops, md5, r.path).Some?
    ensures forall p :: Untouched(cfg, ops, log, p) ==>
              (p in disk'.files <==> p in disk.files) && (p in disk.files ==> disk'.files[p] == disk.files[p])
  {
    var order, groups := ScanTree(cfg, ops, md5, disk, walk);
    GroupWellFormed(Scanned(disk, ops, md5, Candidates(cfg, ops, walk)));
    disk', log, moveQueue, totalMovedSize := ResolveGroups(cfg, ops, disk, order, groups);
    RunOutcome(cfg, ops, md5, disk, walk);
  }
}
