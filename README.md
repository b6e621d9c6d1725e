# dir_snapshot: snapshot engine and directory store in Dafny

This project models the core of `dir_snapshot`. That is a terminal tool that
tracks directories, takes snapshots of the paths under them and compares two
snapshots. The model covers two parts:

- **The snapshot engine** (`dir_snapshot/snapshot.py`), split into three modules.
  - `Snapshot`: `create_snapshot` sorts each entry of a recursive walk into
    `dirs` or `files`. `compare_snapshot` runs `difflib.unified_diff` on both
    lists and reads added and removed paths off the diff lines.
  - `SnapshotFile`: `generate_snp_filename` builds a name from the directory id
    and the clock. `write_snp_data` / `read_snp_data` store a snapshot as two
    pickled lists, `dirs` first.
  - `Difflib`: what `unified_diff` hands back, as an edit script rendered to lines.
- **The directory store** (`dir_snapshot/db.py`), module `Db`: the class
  `SnapshotDB`, which loads its content from a JSON file when built and
  writes it back in `save_data`.
- `PyStr` holds the Python string operations the engine uses: `find`,
  `startswith`, `strip`, `str(int)` and the zero-padded `strftime` fields.

Foreign calls become inputs:

- The walk is a sequence of `WalkEntry(relPath, isDir)`. These stand for
  `Path.rglob`, `relative_to`, `as_posix` and `is_dir`.
- `unified_diff` is a function parameter of `CompareSnapshot`.
- The clock reading is a `DateTime` value.
- A pickle file is the sequence of values `pickle.load` would read from it.
- `json.load` is a `ParseOutcome`.
- Every `OSError` is an outcome value passed in.

The model follows the code, including where it departs from its own annotations:

- `_load_data` is annotated `-> SnapshotListData`, but it catches only
  `json.JSONDecodeError`. A decoded document whose keys are not exactly `"dirs"`
  makes `SnapshotListData(**json.load(f))` raise, and `SnapshotDB()` fails with it.
- `snapshot_dirs` is annotated `-> list[SnapshotDirData]`, but the store holds
  the decoded `"dirs"` value as it is, so its entries are dicts, not records.
- `read_snp_data` is annotated `-> SnapshotData`, but it returns the tuple
  `([], [])` on `OSError`. Other unpickling errors propagate.
- `compare_snapshot` strips whole runs of `'+'` or `'-'` from both ends of a
  diff line, not just the one tag character.

## Model

| member | source | states |
|---|---|---|
| `Snapshot.CreateSnapshot` | dir_snapshot/snapshot.py:35-43 | The loop's lists are exactly the walk's directory paths and non-directory paths, each in walk order. |
| `Snapshot.PathsOfKind` | dir_snapshot/snapshot.py:35-43 | The list `create_snapshot` builds for one kind is never longer than the walk. Its membership, partition and order are stated by the three lemmas below. |
| `Snapshot.PartitionSizes` | dir_snapshot/snapshot.py:37-41 | Every walk entry lands in exactly one list: the two lengths add up to the number of entries. |
| `Snapshot.PartitionMultiset` | dir_snapshot/snapshot.py:37-41 | `dirs` and `files` together hold every walked path, each occurrence exactly once. |
| `Snapshot.PathsOfKindMembers` | dir_snapshot/snapshot.py:38-41 | A path is in `dirs` (in `files`) iff some entry with that path has `is_dir()` true (false). Symlinks and special files count as whatever `is_dir()` says. |
| `Snapshot.PathsOfKindKeepOrder` | dir_snapshot/snapshot.py:37-41 | Each list keeps walk order. Its k-th path comes from the k-th of a strictly increasing run of walk positions, all of that kind. |
| `Snapshot.AddedOf` | dir_snapshot/snapshot.py:63-66 | The loop's added list has at most one record per diff line, and no recorded addition begins or ends with `'+'`. |
| `Snapshot.RemovedOf` | dir_snapshot/snapshot.py:67-68 | The removed list has at most one record per diff line, and no recorded removal begins or ends with `'-'`. |
| `Snapshot.ClassifiedLines` | dir_snapshot/snapshot.py:63-68 | A diff line gives at most one record: the `elif` skips a line already taken as an addition. |
| `Snapshot.Compare` | dir_snapshot/snapshot.py:56-77 | For dirs and for files, there are at most as many records as diff lines, and an empty diff records nothing. `CompareSnapshot`'s loops are proved equal to it. |
| `Snapshot.CompareSnapshot` | dir_snapshot/snapshot.py:56-77 | The four lists are the classifications of the two diffs. Dir lists come from the diff of `dirs` alone and file lists from the diff of `files` alone. All four start empty. |
| `Snapshot.ClassifyConcat` | dir_snapshot/snapshot.py:63-75 | Classification keeps diff order: on a diff `a + b`, the records of `a` come first, then those of `b`. |
| `Snapshot.AddedOfMembers` | dir_snapshot/snapshot.py:63-66 | A path is recorded as added iff some newline-free diff line starts with `'+'` and strips (`strip("+")`) to that path. |
| `Snapshot.RemovedOfMembers` | dir_snapshot/snapshot.py:67-68 | A path is recorded as removed iff some newline-free line not starting with `'+'` starts with `'-'` and strips (`strip("-")`) to it. |
| `Snapshot.NoChangeLinesNoRecords` | dir_snapshot/snapshot.py:59-75 | A diff with no newline-free `'+'`/`'-'` lines leaves the lists empty. This covers an empty diff, headers only and context only. |
| `Snapshot.ClassifyLine` | dir_snapshot/snapshot.py:64-68 | Headers (which contain a newline) and `' '` context lines are never recorded. An inserted element counts as added and a deleted one as removed. When the element has no newline and no tag at either end, stripping returns it exactly. |
| `Snapshot.ClassifyRendered` | dir_snapshot/snapshot.py:63-75 | On the rendered lines of a diff, the additions are exactly the inserted elements and the removals exactly the deleted ones, in order. |
| `Snapshot.DiffClassification` | dir_snapshot/snapshot.py:56-75 | Take clean paths and a diff of an edit script from old to new. A path in new but not old is reported added; one in old but not new, removed. Added ⊆ new and removed ⊆ old as multisets. Different lists always report something. |
| `Snapshot.ReorderedPathsReported` | dir_snapshot/snapshot.py:56-57 | The comparison is a sequence diff. The same two paths in another order are still reported as changes. |
| `Snapshot.AddedPathLosesTrailingPlus` | dir_snapshot/snapshot.py:66 | An added path `c++` is recorded as `c`, because `strip` removes every `'+'` at both ends. |
| `Snapshot.NewlinePathNotRecorded` | dir_snapshot/snapshot.py:64 | An inserted path that contains a newline is shown by the diff but never recorded as added. |
| `Snapshot.CompareTestScenario` | tests/test_snapshot.py:10-14 | Snapshots chosen to match the test's assertions, with the one-hunk diffs `difflib` gives for them, yield the four asserted lists. |
| `Difflib.InsertedFromTarget` | dir_snapshot/snapshot.py:56-57 | Every inserted element of a diff is an occurrence in the second list (multiset inclusion). |
| `Difflib.DeletedFromSource` | dir_snapshot/snapshot.py:56-57 | Every deleted element of a diff is an occurrence in the first list (multiset inclusion). |
| `Difflib.NewElementsInserted` | dir_snapshot/snapshot.py:56-57 | An element of the second list that the first lacks is among the insertions. |
| `Difflib.VanishedElementsDeleted` | dir_snapshot/snapshot.py:56-57 | An element of the first list that the second lacks is among the deletions. |
| `Difflib.NoChangesSameLists` | dir_snapshot/snapshot.py:56-57 | A diff without insertions or deletions relates equal lists. |
| `SnapshotFile.Timestamp` | dir_snapshot/snapshot.py:89-90 | `now.strftime("%Y%m%d%H%M%S")` is 14 characters, all digits. |
| `SnapshotFile.GenerateSnpFilename` | dir_snapshot/snapshot.py:80-91 | Its length is the directory's length plus the id's length plus 29, begins with the snapshot directory and `/`, and ends with `.snp`. |
| `SnapshotFile.WriteSnpData` | dir_snapshot/snapshot.py:94-110 | Returns `True` iff no `OSError` was raised. A completed write reads back as the same snapshot. |
| `SnapshotFile.ReadSnpData` | dir_snapshot/snapshot.py:113-128 | Gives `([], [])` iff an `OSError` was raised while opening or loading. A loaded snapshot is the file's first two values, `dirs` first. |
| `SnapshotFile.TimestampInjective` | dir_snapshot/snapshot.py:89-90 | `%Y%m%d%H%M%S` strings are equal iff the two instants fall in the same second. |
| `SnapshotFile.FilenameLayout` | dir_snapshot/snapshot.py:89-91 | The name is `<dir>/snapshot-<decimal id>-<14 digits>.snp`, with each part at a fixed position. |
| `SnapshotFile.SameSecondSameName` | dir_snapshot/snapshot.py:89-91 | Two names for one id within the same second are equal, so such snapshots collide. |
| `SnapshotFile.FilenameInjective` | dir_snapshot/snapshot.py:89-91 | Within one snapshot directory, equal names mean equal ids and the same second. |
| `SnapshotFile.CodecRoundTrip` | dir_snapshot/snapshot.py:104-128 | After a successful write, a read gives back the same snapshot, with `dirs` and `files` in place and in order. |
| `SnapshotFile.WriteResult` | dir_snapshot/snapshot.py:104-110 | `write_snp_data` returns `False` iff an `OSError` was raised. On success the file holds exactly `[dirs, files]`. |
| `SnapshotFile.ReadResultCases` | dir_snapshot/snapshot.py:122-128 | The read gives a snapshot iff no `OSError` is raised and the first two values load; the first is `dirs` and the second `files`. An `OSError` always gives the pair `([], [])`. |
| `SnapshotFile.ReadIgnoresRest` | dir_snapshot/snapshot.py:123-125 | Values after the first two do not affect the read. |
| `PyStr.Strip` | dir_snapshot/snapshot.py:66-68 | `strip(c)` is never longer than its input, and its result neither begins nor ends with `c`. |
| `PyStr.IntToStr` | dir_snapshot/snapshot.py:91 | `f"{id}"` is never empty. `IntToStrRoundTrip` reads it back. |
| `PyStr.StripUnique` | dir_snapshot/snapshot.py:66 | `strip(c)` of a run of `c`, a middle that neither begins nor ends with `c`, and another run of `c` is that middle. |
| `PyStr.StripRemovesRuns` | dir_snapshot/snapshot.py:68 | `strip(c)` removes only a run of `c` on each side of its result. |
| `PyStr.IntToStrInjective` | dir_snapshot/snapshot.py:91 | `f"{id}"` is injective on integers, negative ones included. |
| `PyStr.IntToStrRoundTrip` | dir_snapshot/snapshot.py:91 | The decimal written for an id reads back as that id. |
| `Db.SnapshotDB.Open` | dir_snapshot/db.py:24-27 | Construction fails (null) iff `_load_data` raises. Otherwise the new store holds the file path and the loaded content. |
| `Db.SnapshotDB.constructor` | dir_snapshot/db.py:24-27 | Sets `_db_file` and `_snapshot_data`. |
| `Db.SnapshotDB.LoadData` | dir_snapshot/db.py:56-68 | A read failure other than a decode error raises. A decode error gives empty `dirs`. A loaded document was exactly `{"dirs": dirs}`. |
| `Db.SnapshotDB.SnapshotData` | dir_snapshot/db.py:29-36 | The `snapshot_data` property returns the stored content. |
| `Db.SnapshotDB.SnapshotDirs` | dir_snapshot/db.py:38-45 | `snapshot_dirs` is always exactly `snapshot_data.dirs`. |
| `Db.SnapshotDB.DbFile` | dir_snapshot/db.py:47-54 | `db_file` is the stored file path. |
| `Db.SnapshotDB.SaveData` | dir_snapshot/db.py:70-81 | Returns `False` iff an `OSError` was raised. On success the file holds `asdict` of the current content. The store is not modified: the method has no modifies clause. |
| `Db.LoadCases` | dir_snapshot/db.py:56-68 | Loading succeeds iff the document is undecodable (giving empty `dirs`) or is a dict whose only key is `"dirs"`. In that case it stores the `"dirs"` value unchanged, not rebuilt into records. |
| `Db.UnexpectedDocumentRaises` | dir_snapshot/db.py:63-67 | A decoded non-dict, or a dict whose keys are not exactly `{"dirs"}`, raises rather than yielding an empty store. |
| `Db.AsDict` | dir_snapshot/db.py:78 | `asdict` keeps the shape: a record becomes a dict keyed `id`, `path`, `snap_files`, lists keep their length, dicts keep their keys and scalars are unchanged. |
| `Db.SaveDocument` | dir_snapshot/db.py:70-81 | The saved document is always a dict whose only key is `"dirs"`, and it contains no record, so it is plain JSON. |
| `Db.AsDictIsJson` | dir_snapshot/db.py:78 | `asdict` leaves no `SnapshotDirData` record anywhere in the document. |
| `Db.AsDictKeepsJson` | dir_snapshot/db.py:78 | `asdict` returns a record-free value unchanged. |
| `Db.SaveLoadRoundTrip` | dir_snapshot/db.py:56-81 | Content that came from a JSON document is saved and loaded back unchanged. |
| `Db.SaveLoadSaveStable` | dir_snapshot/db.py:56-81 | Saving, loading back and saving again writes the same document twice. |
| `Db.SaveRecords` | dir_snapshot/db.py:9-18 | A store of records saves as `{"dirs": [{"id", "path", "snap_files"}, ...]}`. |
| `Db.EmptyDbScenario` | tests/test_db.py:6-11 | An undecodable database file gives `snapshot_data == SnapshotListData(dirs=[])` and `snapshot_dirs == []`. |
| `Db.EmptyDirsScenario` | tests/test_db.py:14-19 | A file holding `{"dirs": []}` gives the same empty store and empty list. |

## Left out

- The filesystem walk (`Path(dir).rglob("*")`, `is_dir`, `relative_to`, `as_posix`) is an input sequence of entries. A walk that raises part-way is not modelled.
- `difflib`'s matching algorithm (`SequenceMatcher`) is not modelled. An edit script stands for its choice. Context trimming and hunk layout are free, within `Difflib.ShowsChanges`.
- The fixture `snapshots` used by `tests/test_snapshot.py` is not defined anywhere in the repository. `CompareTestScenario` supplies its own snapshots and one-hunk diffs consistent with the asserted results.
- The pickle and JSON byte formats are not modelled. A snapshot file is a sequence of loadable or unloadable values. A registry document is a `Value` tree. JSON floats and pickled objects other than lists of strings are not represented.
- `SnapshotFile.Timestamp`: the year is padded to four digits. For years below 1000 the platform's `strftime` may not pad.
- `get_snapshot_dir()` (directory creation, home lookup, `sys.exit` on failure) and `get_db_file()` (creating an empty file) are in `dir_snapshot/util.py`, which is not part of this model. The snapshot directory and the database path are string inputs.
- The extension `.snp` is written into the name, as `generate_snp_filename` does. The constant `APP_SNAPSHOT_EXT` in `dir_snapshot/__init__.py` is not used.
- `Db.SnapshotDB.SaveData` reports only whether a complete document was written. What a failed write leaves in the file is not modelled.
- The registry operations `add_snapshot_dir`, `get_id_by_path`, `get_snapshot_dir_by_path` and `update_snapshot_dir` are called from `dir_snapshot/app.py` but defined nowhere. Directory removal only shows a notification. None of them is modelled.
- The terminal interface (`dir_snapshot/app.py`, `dir_snapshot/ui.py`) is not modelled, including the two-selection limit on the snapshot list.
