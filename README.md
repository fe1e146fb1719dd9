# Duplicate photo and video remover, modelled in Dafny

The repository has two scripts that find media files with identical content
(by MD5 digest) and act on the duplicates:

- **Single-tree mode** (`run_auto_backup`) scans one drive and skips the
  backup folder. It groups photos and videos by digest. In each group of two
  or more it keeps one file by a retention policy. A file whose path (file
  name included) contains neither "Google Photos" nor "Google 포토" anywhere
  wins, then the longer file name, then scan order.
  Every other member is moved under the backup folder at its path relative to
  the drive. One CSV row is written per group member, and the script counts
  the bytes moved.
- **Reference-vs-target mode** (`main` of the comparison script) indexes a
  reference folder by digest. It then deletes every file of a target folder
  whose digest is indexed, unless it is the indexed reference file itself.
  It writes one 'Deleted' row per deletion and counts the bytes reclaimed.

Both modes hash a file by reading it in 64 KiB chunks. Any failure yields no
digest.

The model is imperative where the scripts are. The read loop, the scan, the
grouping, the sort-and-move loop, the indexing pass and the deletion pass are
`method`s with loops. Each method is proved equal to a specification function
defined by the same left-to-right fold. The promised properties are proved
as lemmas about those functions.

The disk is a value (`FileSystem.Disk`). It maps absolute paths to contents
and records:
- the directories;
- the files that cannot be read;
- the paths where a removal or creation is refused.

`os.path.abspath`, `join` and `relpath` are uninterpreted functions
(`FileSystem.PathOps`). MD5 is an uninterpreted function from bytes to a
32-character digest. The `os.walk` traversal is an input: a sequence of
(root, file names) listings. The configuration constants are parameters
(`AutoBackup.Config`, `CompareDelete.Config`).

Files:
- `wrappers.dfy`: `Option`.
- `filesystem.dfy`: the disk, `exists`, `getsize`, `remove`, `move`.
- `hashing.dfy`: `get_file_hash` (both scripts).
- `scanning.dfy`: suffix rule, extension filter, `find_media_files`.
- `records.dfy`: the per-file record of single-tree mode.
- `retention.dfy`: the sort key and the stable descending sort.
- `autobackup.dfy`: `run_auto_backup`.
- `compare.dfy`: the comparison script's `main`.

## Model

| member | source | states |
|---|---|---|
| Hashing.Read | remove_duplicate_photos_by_Gemini.py:26 | `f.read(65536)` returns the next slice of the file, of at most 65536 bytes; it is empty exactly at the end; it is full unless it reaches the end |
| Hashing.Hasher.constructor | remove_duplicate_photos_by_Gemini.py:23 | a fresh MD5 object has consumed nothing |
| Hashing.Hasher.Update | remove_duplicate_photos_by_Gemini.py:27 | `update(buf)` appends `buf` to what the hasher has consumed |
| Hashing.HashFile | remove_duplicate_photos_by_Gemini.py:21-30 | the result is the digest of the whole file, or none when the file is missing or unreadable. The chunks read are non-empty, at most 65536 bytes each, and concatenate to the file's content. `get_file_hash` of the comparison script (compare_and_delete_duplicates.py, lines 24-35) is the same routine and is modelled by this member too |
| Scanning.LastIndexOf | compare_and_delete_duplicates.py:41 | the position of the last occurrence of a character, or -1 when it does not occur |
| Scanning.Suffix | compare_and_delete_duplicates.py:41 | `Path(file).suffix` is non-empty exactly when there is a dot that is not the first character, not the last, and not followed by another dot; it is then the tail of the name from that dot |
| Scanning.Lower | compare_and_delete_duplicates.py:41 | the model of `lower()` maps each ASCII capital to its small letter and keeps every other character, so the model keeps the length (Python's `str.lower()` need not; see "Left out") |
| Scanning.LowerKeepsDots | compare_and_delete_duplicates.py:41 | lower-casing neither creates nor removes a dot |
| Scanning.LowerSuffix | compare_and_delete_duplicates.py:41 | lower-casing the suffix is taking the suffix of the lower-cased name |
| Scanning.MediaIgnoresCase | compare_and_delete_duplicates.py:41-42 | the extension test ignores case: two names that lower-case alike are both media files or neither |
| Scanning.MediaInSound | compare_and_delete_duplicates.py:40-43 | a path yielded for one directory listing is the join of its root and a file name whose lower-cased suffix is in the extensions |
| Scanning.MediaInComplete | compare_and_delete_duplicates.py:40-43 | every such file name of the listing is yielded |
| Scanning.FindMediaFilesSound | compare_and_delete_duplicates.py:37-43 | every path `find_media_files` yields is a media file of some listing of the traversal |
| Scanning.FindMediaFilesComplete | compare_and_delete_duplicates.py:37-43 | every media file of every listing is yielded |
| AutoBackup.FileCandidatesSound | remove_duplicate_photos_by_Gemini.py:68-71 | a candidate of a listing is a file of it with a lower-cased suffix in the extensions, at the join of root and name |
| AutoBackup.FileCandidatesComplete | remove_duplicate_photos_by_Gemini.py:68-71 | every media file of the listing is a candidate |
| AutoBackup.CandidatesSound | remove_duplicate_photos_by_Gemini.py:63-71 | every candidate is a media file of a listing whose absolute root does not start with the absolute backup path |
| AutoBackup.CandidatesComplete | remove_duplicate_photos_by_Gemini.py:63-71 | every media file of a listing outside the backup folder is a candidate |
| AutoBackup.ScannedSound | remove_duplicate_photos_by_Gemini.py:76-77 | a hashed entry comes from a candidate whose hash is that digest |
| AutoBackup.ScannedComplete | remove_duplicate_photos_by_Gemini.py:76-88 | every candidate that hashes has an entry with its digest and its record (title, size, path, 'Keep') |
| AutoBackup.GroupWellFormed | remove_duplicate_photos_by_Gemini.py:89 | the key order of `files_dict` lists every digest with a group exactly once, and no other |
| AutoBackup.GroupContents | remove_duplicate_photos_by_Gemini.py:89 | a digest has a group exactly when some entry has that digest; the group is the records with that digest in scan order |
| AutoBackup.RecordsWithMembers | remove_duplicate_photos_by_Gemini.py:89 | a record is in the group of a digest exactly when it was scanned with that digest |
| AutoBackup.GroupedRecordHashed | remove_duplicate_photos_by_Gemini.py:63-89 | a grouped record has status 'Keep', hashes to its group's digest and is a candidate; so a file whose hash fails is in no group |
| AutoBackup.HashedCandidateGrouped | remove_duplicate_photos_by_Gemini.py:76-89 | every candidate that hashes is in the group of its own digest |
| AutoBackup.ScanFile | remove_duplicate_photos_by_Gemini.py:69-89 | one file of a listing extends the candidates and `files_dict` exactly as the specification does |
| AutoBackup.ScanListing | remove_duplicate_photos_by_Gemini.py:68-89 | one listing extends the candidates and `files_dict` by its media files that hash |
| AutoBackup.ScanTree | remove_duplicate_photos_by_Gemini.py:63-89 | the scan loop computes `files_dict`, in key order, as the grouping of the hashed candidates |
| Retention.ShiftOccurrence | remove_duplicate_photos_by_Gemini.py:106 | an occurrence one position later in a string is an occurrence in its tail |
| Retention.ContainsOccurs | remove_duplicate_photos_by_Gemini.py:106 | the `in` test on strings holds exactly when the substring occurs at some position |
| Retention.WithKey | remove_duplicate_photos_by_Gemini.py:106 | the records of a sequence with a given sort key, in order |
| Retention.Insert | remove_duplicate_photos_by_Gemini.py:106 | one insertion step of the sort is a permutation that adds that element |
| Retention.RetentionSort | remove_duplicate_photos_by_Gemini.py:106 | `sort(reverse=True)` permutes the group |
| Retention.InsertSorted | remove_duplicate_photos_by_Gemini.py:106 | insertion keeps the sequence in descending key order |
| Retention.InsertWithKey | remove_duplicate_photos_by_Gemini.py:106 | insertion places the new element before every element of its own key |
| Retention.RetentionSortSorted | remove_duplicate_photos_by_Gemini.py:106 | the sorted group is in descending order of (not in Google Photos, title length) |
| Retention.RetentionSortStable | remove_duplicate_photos_by_Gemini.py:106 | records with equal keys keep their scan order, although the sort is reversed |
| Retention.FirstWithKey | remove_duplicate_photos_by_Gemini.py:106 | the first record with a key is found at a position where no earlier record has that key |
| Retention.KeeperChoice | remove_duplicate_photos_by_Gemini.py:106 | index 0 after the sort is a member of the group. It is outside Google Photos whenever some member is. No member with the same Google status has a longer title. It is the first such member in scan order |
| AutoBackup.Handle | remove_duplicate_photos_by_Gemini.py:108-125 | the keeper is only logged. Any other member is logged as 'Move to Backup' whatever the move does. A successful move changes the disk and adds the member and its size to `move_queue` and the total. A failed move changes neither |
| AutoBackup.HandleMembersLog | remove_duplicate_photos_by_Gemini.py:108-125 | a sorted group writes exactly its classified rows, in order |
| AutoBackup.HandleGroupsLog | remove_duplicate_photos_by_Gemini.py:100-125 | the CSV body is the rows of the groups of two or more, in `files_dict` order, independent of which moves fail |
| AutoBackup.GroupRowsStatus | remove_duplicate_photos_by_Gemini.py:101-125 | a group of N >= 2 yields N rows: the first is 'Keep' and the sort's index 0, the other N-1 are 'Move to Backup'; each row is a group member and each member has a row; a group of one yields no row |
| AutoBackup.HandleMembersAccounted | remove_duplicate_photos_by_Gemini.py:116-122 | after each member, `total_moved_size` is the sum of sizes in `move_queue`, and every entry of `move_queue` is a row logged as moved |
| AutoBackup.HandleGroupsAccounted | remove_duplicate_photos_by_Gemini.py:100-122 | the same accounting holds after every group |
| AutoBackup.UntouchedByGroup | remove_duplicate_photos_by_Gemini.py:108-122 | a file that is neither a moved member of the group nor a destination of one keeps its presence and content, so the keeper stays where it is |
| AutoBackup.RowIsMember | remove_duplicate_photos_by_Gemini.py:124-125 | every row of a group is a member of the group, up to its status |
| AutoBackup.ExpectedLogRows | remove_duplicate_photos_by_Gemini.py:100-125 | every row of the CSV body is a member of some group of two or more |
| AutoBackup.RunLogAndAccounting | remove_duplicate_photos_by_Gemini.py:52-125 | a whole run logs exactly the rows of the duplicate groups in `files_dict` order, and the accounting holds at the end |
| AutoBackup.RunRowHashed | remove_duplicate_photos_by_Gemini.py:63-125 | every row of a run is a candidate that hashed and a member of a group of two or more with its digest |
| AutoBackup.ExpectedLogHasGroup | remove_duplicate_photos_by_Gemini.py:100-125 | the rows of every group in `files_dict` order are rows of the CSV body |
| AutoBackup.RunLogsEveryMember | remove_duplicate_photos_by_Gemini.py:100-125 | every member of a group of two or more is logged by the run, up to its status |
| AutoBackup.FileCandidatesSnoc | remove_duplicate_photos_by_Gemini.py:68-71 | the candidates of a listing grow by the next file exactly when it is a media file |
| AutoBackup.ScannedSnoc | remove_duplicate_photos_by_Gemini.py:76-89 | a candidate whose hash fails adds no entry; one that hashes adds its entry |
| AutoBackup.GroupSnoc | remove_duplicate_photos_by_Gemini.py:89 | grouping one more entry is one `setdefault(...).append(...)` |
| AutoBackup.ResolveGroup | remove_duplicate_photos_by_Gemini.py:101-125 | the sort-then-move loop of one group computes what the specification of that group does |
| AutoBackup.HandleGroupsUntouched | remove_duplicate_photos_by_Gemini.py:100-122 | groups resolved in `files_dict` order leave unchanged every file that no row logged as moved names, as source or destination |
| AutoBackup.RunUntouched | remove_duplicate_photos_by_Gemini.py:52-125 | a whole run changes only the files its moved rows name: every other file is present afterwards exactly when it was before, with the same content |
| AutoBackup.KeeperStays | remove_duplicate_photos_by_Gemini.py:106-125 | every row logged 'Keep' names a file that is still at its path with its content after the run, unless a moved row reaches its absolute path |
| AutoBackup.RunOutcome | remove_duplicate_photos_by_Gemini.py:52-125 | after a whole run, `total_moved_size` is the sum of the sizes in `move_queue`. Every moved record is logged as 'Move to Backup'. Every logged file hashed. Every file no moved row names is unchanged |
| AutoBackup.ResolveGroups | remove_duplicate_photos_by_Gemini.py:100-125 | the resolution loop over `files_dict` computes what the specification of all groups does |
| AutoBackup.RunAutoBackup | remove_duplicate_photos_by_Gemini.py:52-125 | `run_auto_backup` computes the specified run. `total_moved_size` is the sum of the sizes in `move_queue`. Every moved record is logged as 'Move to Backup'. Every logged file hashed. Every file that no moved row names, as source or destination, is unchanged on the disk afterwards |
| FileSystem.Size | compare_and_delete_duplicates.py:96 | `getsize` fails exactly when there is no file, and otherwise is the length of its content |
| FileSystem.Remove | compare_and_delete_duplicates.py:97 | `os.remove` succeeds exactly when the file is there and not refused, and then removes only that file; on failure nothing changes |
| FileSystem.Move | remove_duplicate_photos_by_Gemini.py:117-118 | on success the content of the source is at the destination and the source is gone; other files and permissions are unchanged; on failure nothing changes. The directories `os.makedirs` creates are not modelled (see "Left out") |
| CompareDelete.ReferenceHashesLastWins | compare_and_delete_duplicates.py:60-64 | a digest is in `reference_hashes` exactly when some reference file hashes to it, and it maps to the last such file of the scan |
| CompareDelete.ReferenceCountIsHashed | compare_and_delete_duplicates.py:58-65 | `count` is the number of reference files hashed successfully |
| CompareDelete.ReferenceCountBoundsIndex | compare_and_delete_duplicates.py:57-65 | the index has no more digests than `count`: duplicates inside the reference folder collapse |
| CompareDelete.ReferenceHashesIntact | compare_and_delete_duplicates.py:60-64 | every indexed reference path is a file whose content has the indexed digest |
| CompareDelete.StepDeletes | compare_and_delete_duplicates.py:82-112 | a target file is deleted exactly when it hashes, its digest is indexed, its absolute path differs from the indexed reference path and the removal succeeds. Then exactly one row (deleted path, kept reference path, size) is written, and the file and its size are added to `deleted_files` and `deleted_size`. Otherwise (no hash, no match, same file, failed size lookup or removal) nothing changes and no row is written |
| CompareDelete.StepKeepsInvariant | compare_and_delete_duplicates.py:82-112 | each target file keeps the pass-2 invariant (see the next row) |
| CompareDelete.SweepAllInvariant | compare_and_delete_duplicates.py:82-112 | after every target file: `deleted_files` and `deleted_size` are the paths and the sum of sizes of the rows; every indexed reference file is still there, unchanged; every row names a file now gone, different from its kept reference file, with the same digest; every file now gone is named by a row; no file was changed or created |
| CompareDelete.SweepRowsFromTargets | compare_and_delete_duplicates.py:82-108 | every row is a scanned target file, and its kept path is the reference path indexed under the deleted file's digest |
| CompareDelete.FilesOnlyShrink | compare_and_delete_duplicates.py:95-97 | the deletion pass only removes files |
| CompareDelete.SweepLeavesOthers | compare_and_delete_duplicates.py:82-112 | a file that no scanned target path names is left as it was |
| CompareDelete.SweepAllComplete | compare_and_delete_duplicates.py:82-108 | when the target paths name distinct files, every target file that hashes to an indexed digest, differs from that reference file and can be removed is deleted and logged with its kept reference path and size |
| CompareDelete.CompareRunComplete | compare_and_delete_duplicates.py:51-108 | with both folders present and distinct target files, a whole run deletes and logs every such duplicate |
| CompareDelete.SweepSparesUnmatched | compare_and_delete_duplicates.py:82-88 | a target file that does not hash, or whose digest is not indexed, is left as it was and no row names it |
| CompareDelete.CompareRunSparesUnmatched | compare_and_delete_duplicates.py:51-88 | a whole run leaves every file that does not hash or has no indexed digest as it was, and logs no row for it |
| CompareDelete.CompareRunProperties | compare_and_delete_duplicates.py:45-112 | if either folder is missing, nothing is hashed, deleted or logged. Otherwise the pass-2 invariant holds at the end: every deleted file has a row and every row a deleted file, and no indexed reference file is ever deleted, on a disk where equal files have equal `abspath` strings (see "Left out") |
| CompareDelete.IndexReferences | compare_and_delete_duplicates.py:57-67 | the reference loop computes `reference_hashes` and `count` as specified |
| CompareDelete.DeleteIfDuplicate | compare_and_delete_duplicates.py:83-112 | the body of the target loop computes the specified step, with its early `continue`s and its caught failures |
| CompareDelete.CompareAndDelete | compare_and_delete_duplicates.py:45-112 | `main` computes the specified run. It stops when a folder is missing, leaving the disk unchanged. Otherwise every indexed reference file survives unchanged, and the accumulators match the rows |

## Left out

- `get_date_info` and the `date_taken`, `date_mod` and `mtime` fields are left out. EXIF reading and time formatting are foreign calls that only enrich the log, so a record holds title, size, path and status.
- The internals of MD5 are left out. The digest is an uninterpreted function of the whole content, and the hasher folds the chunks into their concatenation.
- The traversal order of `os.walk` is not modelled: the listings are an input sequence. They are also taken as fixed, although the comparison script walks the target folder lazily while it deletes files.
- `os.makedirs` and the copy-then-delete of a cross-volume `shutil.move` are not modelled separately. Both are folded into one move that either succeeds or leaves the disk as it was (`FileSystem.CanMove`).
- FileSystem.Move: leaves the directories unchanged. In the script, `os.makedirs` creates the destination's parent directories before `shutil.move`, and they stay even when the move then fails. No other part of the model reads the directories of the backup tree.
- `os.path.abspath`, `join` and `relpath` are left uninterpreted. The backup exclusion is the plain string-prefix test the code makes, so a sibling folder whose name extends the backup folder's name is skipped too, as in the code.
- Scanning.Lower: lowers ASCII letters only, while `str.lower()` applies the Unicode case mapping. So the model differs on non-ASCII capitals. Python lowers U+212A KELVIN SIGN to 'k', so "clip.m\u212Av" is a media file for the script ('.mkv' is an extension) but not for the model. Python also lowers U+0130 to two code points, so the length-keeping clause holds of the model only.
- Reads that fail midway, and other I/O errors, are modelled as a fixed set of unreadable files. A file hashes or it does not, on a given disk.
- In single-tree mode, `os.path.getmtime`, `os.path.getsize` and `datetime.fromtimestamp(mtime).strftime(...)` run outside any `try` (remove_duplicate_photos_by_Gemini.py, lines 79, 82 and 84), so an error there would end the script. `get_date_info` catches its own errors. The model has a hashed file always present, and the timestamps are left out, so that crash is not modelled.
- The CSV file itself is left out: its encoding (utf-8-sig), its header and the field order. The log is the sequence of rows.
- Console output, progress messages and the final MB summary with float division are left out.
- The comparison script's existence check is modelled. The single-tree script has none; walking a missing drive yields an empty traversal.
- CompareDelete.SweepAllInvariant: deletion, counting and logging are one step in the model. In the comparison script `os.remove` (line 97) and the two accumulators (lines 99-100) come before `writer.writerow` (line 103) in the same `try`, so a row that cannot be written leaves the file deleted and counted but unlogged. A POSIX file name with an undecodable byte, which `os.walk` yields with a lone surrogate such as "\udce9.jpg", makes the utf-8-sig writer raise `UnicodeEncodeError`; the `[Delete Failed]` message that follows prints the same name and can end the run. In the single-tree script `writer.writerow` (line 125) is outside any `try`, so the same name ends the run after its move. Both scripts also create or truncate LOG_FILE in the working directory (lines 77 and 95); the modelled disk does not hold it, so "no file was changed or created" speaks of the scanned files only.
- CompareDelete.CompareRunProperties: "no indexed reference file is deleted" holds in the model only because the disk is keyed by `abspath` strings, so two paths with different `abspath` strings are different files there. The script's same-file guard also compares only `abspath` strings, with no `realpath`, `normcase` or `samefile`. On a case-insensitive volume, REFERENCE_DIR "D:/Photos/Reference" with TARGET_DIR "d:/photos/reference" makes every reference file a target too. Its `abspath` differs from the indexed one, so the script deletes the indexed reference file itself. A junction or symbolic link into the reference folder does the same. The same key choice underlies `AutoBackup.Untouched`.
- Running a script twice is not modelled. The model covers one run.
