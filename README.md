# File catalogue reconciliation, modelled in Dafny

The service keeps a table `new_file_info` with one row per file of a storage
folder: id, name (the stem), extension, directory, size, last-change instant
and comment. Two pieces of logic are modelled.

- **The reconciler** (`SyncFileWithDb`). It walks a folder. In each visited
  directory it deletes the rows whose backing file
  `path_file + "/" + name + extension` is gone. It then stages a row for
  every file not yet stored in that directory, and saves the staged rows
  in batches: a flush happens at 7000 rows while two or more
  files remain, and after the last file of the directory. A second pass
  deletes the rows of every visited directory whose file is gone.
- **The record operations** (`FileInfoView`, `FileUpdateUploadDelView`):
  - paged listing and lookup by id;
  - listing by folder-name substring, and sync followed by that listing;
  - update of name, directory and comment, with the file moved after the
    commit;
  - upload of a file and its row;
  - deletion of a row together with its file.

Five modules:

- `Paths`: path strings as the source builds them (`replace("\\", "/")`,
  `PurePath` stem and suffix, `str(PurePosixPath(...))`, `os.path.splitext`,
  `os.path.join`). It also holds the `Disk` class: the set of path strings
  that exist.
- `Models`: the row, the record the application fills in before saving,
  and the two not-found errors.
- `Store`: the table as a value and the queries on it. It also holds the
  `Session` class, a SQLAlchemy session with `autoflush=False`:
  - `delete` only marks a row, and queries still see it until `commit`;
  - `bulk_save_objects` and `add` append rows under consecutive ids.
- `Integrations`: the reconciler.
  - Functions give the table each step leaves: `StepFile`, `RunFiles`,
    `AddListing`, `PurgeMissing`, `AddPass`, `DelPass` and `Sync`.
  - The class `SyncFileWithDb` runs the loops of the source on a `Session`
    and is proved to leave exactly that table.
  - Lemmas state the batch bound, that nothing staged is lost, the
    insert-skip rule, deletion exactly of rows whose file is missing,
    agreement with the file system after a sync, exactly one row per
    walked file (a file without a row gains one, a file with a row gains
    none), and idempotence.
- `Views`: the queries as functions and the two view classes as classes.

The reconciler class and the views use the corrected forms of the four
defects listed under "## Findings". The source as written is modelled
beside them: `AddVisitAsWritten`, `DelVisitAsWritten`, `SyncAsWritten` and
`UploadInfoAsWritten`. Whether the insert loop's lookup filters on the name
alone (as written) or on name and extension (corrected) is a parameter,
`Store.Key`, of the functions that describe that loop; the lemmas about
batching hold for both.

## Model

| member | source | states |
|---|---|---|
| Paths.NormalizeReplaces | src/integrations.py:44-46 | Normalising a path keeps its length, turns every backslash into a slash, keeps every other character, and leaves no backslash. |
| Paths.NormalizeIgnoresSeparatorStyle | src/integrations.py:28 | Two spellings of a directory that differ only in which separator they use give the same normalised string. |
| Paths.StemSuffixSplit | src/integrations.py:47-48 | A file name is its stem followed by its suffix. The suffix is empty, or is a dot followed by at least one character and no further dot. The stem is non-empty for a non-empty name. |
| Paths.PurePathStringNoTrailingSlash | src/integrations.py:44-46 | The pathlib string of a directory is non-empty and ends in a slash only when it is a bare root. |
| Paths.StoredDirectoryForm | src/integrations.py:44-46 | The directory stored for a file is never empty and contains no backslash. |
| Paths.SplitExt | src/views.py:114 | The extension `splitext` returns is a tail of the path. It is empty, or starts with a dot and contains no slash and no further dot. It is non-empty exactly when the last component of the path has a dot preceded by some character other than a dot. |
| Paths.Disk.Rename | src/views.py:91-92 | Renaming an existing path removes the source and adds the target. |
| Paths.Disk.Remove | src/views.py:135-136 | Removing an existing path removes exactly that path. |
| Paths.Disk.Write | src/views.py:106-108 | Writing a file adds its path. |
| Store.ByDirectoryExact | src/integrations.py:26-30 | The directory query returns exactly the rows whose `path_file` equals the directory. |
| Store.ByDirectoryNone | src/integrations.py:26-31 | When no row is stored under the directory, the query result is empty. |
| Store.FindFileExact | src/integrations.py:53-60 | The lookup finds nothing if and only if no row passes its filters: name and directory, and also the extension under the whole-file key. A row it finds passes them. |
| Store.FindById | src/views.py:31-33 | The id lookup finds nothing if and only if no row has the id. Otherwise it returns the position of the first row with that id. |
| Store.RemoveIdsExact | src/integrations.py:90-92 | After deleting a set of ids, a row survives if and only if its id is not in the set. |
| Store.RemoveIdsTwice | src/integrations.py:90-92 | Deleting in two rounds leaves what one round with the union of both id sets leaves. |
| Store.RemoveOneId | src/views.py:141-142 | With unique ids, deleting one row's id removes exactly the row at its position; the order of the rest is kept. |
| Store.BulkSaveAppends | src/integrations.py:71 | A bulk save appends the batch in order under consecutive ids from the next id. Rows already stored are untouched. |
| Store.BulkSaveKeepsWellFormed | src/integrations.py:71 | A bulk save keeps ids unique and below the next id. |
| Store.BulkSaveTwice | src/integrations.py:71-73 | Two saves in a row equal one save of both batches. |
| Store.CommitKeepsWellFormed | src/integrations.py:92 | Committing deletions keeps ids unique and below the next id. |
| Store.MissingIdsExact | src/integrations.py:32-37 | An id is marked if and only if some row of the query result carries it and its backing file does not exist. |
| Store.Session.constructor | src/integrations.py:16-17 | A session opens on a well-formed table with nothing marked. |
| Store.Session.Delete | src/integrations.py:37 | Deleting only marks the id; the rows stay as they were. |
| Store.Session.Commit | src/integrations.py:72 | Commit removes the marked rows and clears the marks. |
| Store.Session.BulkSaveObjects | src/integrations.py:71 | The table becomes the bulk save of the batch; the marks are unchanged. |
| Store.Session.Add | src/views.py:119-121 | One row is appended under the next id, and the saved row is returned. |
| Store.Session.Replace | src/views.py:81-83 | Assigning fields of the loaded row changes that row only, keeping its id. |
| Integrations.CandidatePath | src/integrations.py:41-48 | The row prepared for a file names that very file: its backing path is the directory, a slash, and the file name. |
| Integrations.NotFoundWithin | src/integrations.py:53-60 | A lookup that finds nothing in a table finds nothing in any part of it. |
| Integrations.StepFile | src/integrations.py:41-73 | Defines one iteration of the insert loop: the lookup, the staging, and the flush rule with its bulk save and commit. |
| Integrations.StagingBound | src/integrations.py:68-73 | After every file the staging list holds at most 7000 rows, and fewer than 7000 while two or more files remain. Every flushed batch holds between 1 and 7001 rows. |
| Integrations.DirectoryDrains | src/integrations.py:68-73 | After the last file of a non-empty directory the staging list is empty, so nothing is carried into the next directory. |
| Integrations.NothingDropped | src/integrations.py:61-73 | The flushed batches followed by the waiting list are exactly the staged rows, in order, all for this directory. |
| Integrations.InsertsFromStart | src/integrations.py:53-73 | In the insert loop nothing stays marked. The table is the starting table with every flushed batch appended. A row is staged only when the lookup found no row for it in the starting table. |
| Integrations.SameStemBothStaged | src/integrations.py:53-67 | The lookup as written does not see the waiting list. Two new files of one directory with the same stem are both inserted, giving two rows with one name and directory. |
| Integrations.FlushKeepsCover | src/integrations.py:71-73 | A flush of rows whose files exist keeps the directory clean, keeps every stored row, and stores every waiting row. |
| Integrations.RunFilesCovers | src/integrations.py:40-73 | With the whole-file lookup: when the listed files exist and the directory starts clean, every processed file has a row with its stem, suffix and directory, or is waiting; the directory stays clean. |
| Integrations.RunFilesIdle | src/integrations.py:53-60 | When the lookup finds a row for every file, the insert loop changes nothing. |
| Integrations.PurgeMissingExact | src/integrations.py:26-37 | A row is deleted if and only if it is stored under the directory and its file is missing. Rows of other directories are unaffected, and ids stay unique. |
| Integrations.PurgeMissing | src/integrations.py:26-37 | Defines the deletion block of one directory, committed: the rows stored under it whose file is missing are removed. |
| Integrations.AddListing | src/integrations.py:23-73 | Defines one directory of the corrected add pass: the committed purge, then the insert loop with the whole-file lookup. Corrected (Findings rows 2 and 4). |
| Integrations.AddListingCovers | src/integrations.py:23-73 | One directory of the add pass keeps ids unique and keeps every row whose file exists. Every listed file then has its own row (stem, suffix and directory) whose backing file exists. |
| Integrations.AddPassCovers | src/integrations.py:19-73 | After the add pass every file of every visited directory has its own row (stem, suffix and directory) whose backing file exists. Rows whose file exists are kept. |
| Integrations.AddPass | src/integrations.py:19-73 | Defines the corrected add pass: `AddListing` over every visited directory in walk order. |
| Integrations.DelPassCleans | src/integrations.py:75-92 | The delete pass only removes rows, and keeps every row whose file exists. Afterwards every row of a visited directory names an existing file. |
| Integrations.DelPass | src/integrations.py:75-92 | Corrected (Findings row 1): defines the delete pass, querying each directory in its stored form: the committed deletion of missing rows over every visited directory. |
| Integrations.Sync | src/integrations.py:94-97 | Defines the corrected sync: the add pass, then the delete pass, over one walk. |
| Integrations.ReconcileEstablishes | src/integrations.py:94-97 | Suppose the walk agrees with the file system. After the add pass and the delete pass every visited directory agrees with the store both ways: each listed file has its own row naming it, and each row of the directory names an existing file. Ids are unique. That no file gains a second row is `ReconcileCounts`. |
| Integrations.SyncEstablishes | src/integrations.py:94-97 | The same for a sync over a walk, file by file. That each file has exactly one row is `SyncRecordsOnce`. |
| Integrations.SameStemAndSuffix | src/integrations.py:47-48 | Two file names with the same stem and the same suffix are the same name. |
| Integrations.CountBulkSave | src/integrations.py:71 | Saving a batch adds, for every file, exactly the batch rows that record it. |
| Integrations.CountZero | src/integrations.py:53-60 | The corrected lookup finds nothing for a file if and only if no row records that file (same stem, suffix and directory). |
| Integrations.PurgeKeepsCount | src/integrations.py:26-37 | Purging a directory keeps every row of other directories, and every row of the directory whose file exists, so such a file's row count is unchanged. |
| Integrations.LookupSeesCommitted | src/integrations.py:53-60 | When the loop reaches a file, the table records it as often as the committed starting table does: no earlier file of the listing staged a row for it. |
| Integrations.StageOne | src/integrations.py:61-67 | Staging a file's row adds one to that file's count and to no other file's. |
| Integrations.StagedOnceStep | src/integrations.py:40-73 | Each iteration of the insert loop keeps the invariant: exactly one row is staged for each file seen so far that the starting table does not record, and none for any other file. |
| Integrations.AddListingCounts | src/integrations.py:23-73 | One directory of the corrected add pass gives each listed file without a row exactly one row. A file that already has a row gains none. Every other existing file, in this or another directory, keeps its row count. |
| Integrations.AddCountStep | src/integrations.py:23-73 | One more directory of the add pass keeps ids unique and keeps the count invariant of the whole pass. |
| Integrations.AddPassCounts | src/integrations.py:23-73 | After the add pass, an existing file that some visited directory lists and that had no row has exactly one row. Every other existing file keeps its count. |
| Integrations.DelPassCounts | src/integrations.py:77-92 | The delete pass keeps the row count of every existing file. |
| Integrations.ReconcileCounts | src/integrations.py:94-97 | After both passes, a listed file that had no row has exactly one row. Every other existing file, listed or not, keeps its row count, so no file gains a second row. |
| Integrations.ReconcileRecordsOnce | src/integrations.py:94-97 | Starting with at most one row per listed file, reconciling leaves exactly one row for every file of every directory. |
| Integrations.SyncCounts | src/integrations.py:94-97 | The same count statement for a sync over a walk whose visits list each file once. |
| Integrations.SyncRecordsOnce | src/integrations.py:94-97 | Starting with at most one row per walked file, a sync leaves exactly one row for every walked file. |
| Integrations.AddListingKeepsOtherRows | src/integrations.py:23-73 | One directory of the add pass keeps ids unique and keeps every row stored under another directory. |
| Integrations.ReconcileKeepsUnvisited | src/integrations.py:77-92 | Both passes query only the visited directories: a row stored under a directory that no listing names survives reconciling, whether or not its file exists. |
| Integrations.SyncKeepsUnvisited | src/integrations.py:94-97 | The walk form: a row whose directory is the stored form of no visited root survives a sync. |
| Integrations.PlainRootStored | src/integrations.py:44-46 | The root "d" is stored as "d". |
| Integrations.RemovedSubdirectoryKept | src/integrations.py:77-92 | A row stored under "d/sub" whose file is gone survives a sync of a walk that visits only "d", as after "d/sub" was removed from disk. |
| Integrations.AddPassIdle | src/integrations.py:19-73 | On a store that agrees with the walk, the add pass inserts nothing and deletes nothing. |
| Integrations.DelPassIdle | src/integrations.py:75-92 | On a store that agrees with the walk, the delete pass deletes nothing. |
| Integrations.ReconcileNoChange | src/integrations.py:94-97 | On a store that agrees with the walk, reconciling leaves the table as it is. |
| Integrations.SyncIdempotent | src/integrations.py:94-97 | Syncing a second time over an unchanged tree leaves the table of the first sync. |
| Integrations.AddVisitAsWritten | src/integrations.py:23-73 | Defines one directory of `_add_files` as written: deletions queried by the raw root and left uncommitted, then the insert loop with the lookup on name and directory. |
| Integrations.AddPassAsWritten | src/integrations.py:19-73 | Defines `_add_files` as written over the whole walk. |
| Integrations.DelVisitAsWritten | src/integrations.py:80-92 | Defines one directory of `_del_files_from_db` as written; its first commit also applies every deletion still marked. |
| Integrations.DelPassAsWritten | src/integrations.py:75-92 | Defines `_del_files_from_db` as written over the whole walk. |
| Integrations.SyncAsWritten | src/integrations.py:94-97 | Defines the committed table after the sync as written; deletions still marked at the end are discarded. |
| Integrations.RawRootKeepsStaleRow | src/integrations.py:26-30 | Suppose no row is stored under the root as spelled, and a row under the root's stored form has lost its file. The sync as written leaves the table unchanged, so that row stays although the store disagrees with the walk. The corrected sync removes it. |
| Integrations.DotRootStoredDifferently | src/integrations.py:28-46 | The root "./d" is stored as "d" but queried as "./d". |
| Integrations.StaleLookupStagesNothing | src/integrations.py:31-60 | As written, a file whose stem matches a row of its directory stages nothing, even when that row is only marked for deletion. |
| Integrations.DelPassAsWrittenShrinks | src/integrations.py:85-92 | The delete pass as written only removes rows. |
| Integrations.UncommittedDeleteHidesFile | src/integrations.py:31-60 | Suppose every row sharing a file's stem in its directory names a missing file. The sync as written leaves the file without a row although the walk agrees with the file system. The corrected sync records it. |
| Integrations.StemLookupHidesFile | src/integrations.py:53-60 | Suppose a row shares a file's stem and directory, and no row with the file's stem, suffix and directory names an existing file. The sync as written leaves the file without a row although the walk agrees with the file system. The corrected sync records it. |
| Integrations.OtherExtensionHidesFile | src/integrations.py:53-60 | Suppose the only rows sharing a file's stem in its directory have another extension, one of them naming an existing file. The sync as written leaves the file without a row; the corrected sync records it. |
| Integrations.SyncFileWithDb.constructor | src/integrations.py:16-17 | The reconciler opens a session on the table, with nothing marked. |
| Integrations.SyncFileWithDb.MarkMissing | src/integrations.py:26-37 | The deletion loop marks exactly the rows of the directory whose file is missing, and changes no row yet. |
| Integrations.SyncFileWithDb.PurgeDirectory | src/integrations.py:26-37 | Corrected (Findings rows 1 and 2): the deletion block, queried by the stored directory and committed, leaves the table `PurgeMissing` describes. |
| Integrations.SyncFileWithDb.StageFile | src/integrations.py:41-73 | Corrected (Findings row 4): one iteration of the insert loop (lookup on name, extension and directory, staging, flush rule) moves the session and the staging list as `StepFile` does. |
| Integrations.SyncFileWithDb.InsertFiles | src/integrations.py:40-73 | Corrected (Findings row 4): the insert loop over one directory leaves the table `RunFiles` describes with the whole-file lookup, with nothing marked. |
| Integrations.SyncFileWithDb.AddDirectory | src/integrations.py:23-73 | Corrected (Findings rows 1, 2 and 4): one directory of `_add_files` leaves the table `AddListing` describes. |
| Integrations.SyncFileWithDb.AddFiles | src/integrations.py:19-73 | Corrected (Findings rows 1, 2 and 4): `_add_files` over the walk of its directory leaves the table `AddPass` describes. |
| Integrations.SyncFileWithDb.DeleteMissing | src/integrations.py:80-92 | Corrected (Findings row 1): deleting and committing the missing rows of the stored directory one by one leaves the table `PurgeMissing` describes. |
| Integrations.SyncFileWithDb.DelFilesFromDb | src/integrations.py:75-92 | Corrected (Findings row 1): `_del_files_from_db` over the walk of its directory leaves the table `DelPass` describes. |
| Integrations.SyncFileWithDb.SyncLocalStorageWithDb | src/integrations.py:94-97 | Corrected (Findings rows 1, 2 and 4): the sync leaves the table `Sync` describes. When the walk agrees with the file system, the store then agrees with the walk, file by file. When in addition each visit lists a file once, a listed file that had no row has exactly one, and every other existing file keeps its row count. |
| Views.GetItems | src/views.py:25-27 | A page holds at most `limit` rows: the rows from position `offset` on, in table order. It is empty past the end. |
| Views.PagesAdjoin | src/views.py:25-27 | Two consecutive pages are one page of their combined size, so paging neither skips nor repeats a row. |
| Views.InFolderExact | src/views.py:42-48 | The folder filter keeps exactly the rows whose directory contains the requested name. |
| Views.GetItemsByFolderMatches | src/views.py:38-48 | A folder page holds at most `limit` stored rows, each in a directory containing the requested name. |
| Views.GetItem | src/views.py:29-36 | The lookup succeeds if and only if some row has the id. It then returns a stored row with that id; otherwise it fails with not-found. |
| Views.GetItemUnique | src/views.py:29-36 | With unique ids, the row returned is the one stored row with that id. |
| Views.Updated | src/views.py:70-85 | An update never changes the id, the extension or the size. |
| Views.UpdatedFields | src/views.py:70-83 | Name, directory and comment each take the new value exactly when a non-empty one is given, and keep the old value otherwise. |
| Views.StampRule | src/views.py:84-85 | The change instant is stamped exactly when a non-empty new name or directory is given, or an empty one equal to an empty stored value. A comment-only update never stamps. |
| Views.UpdatedTwice | src/views.py:70-85 | Repeating an update with the same values and instant changes nothing more. |
| Views.UploadDirectory | src/views.py:101-102 | The upload directory is the given one, or "C:/upload/" when it is empty; it is never empty. |
| Views.UploadInfoAsWritten | src/views.py:111-116 | Defines the record `upload_file` builds as written: the whole file name as the name, the `splitext` extension, and the upload directory as given. |
| Views.RecordDirectory | src/views.py:101-113 | The directory the corrected record stores is the upload directory, or the upload directory with one trailing slash dropped. |
| Views.UploadInfo | src/views.py:111-116 | Corrected (Findings row 3): name followed by extension gives back the file name, and the extension is the `splitext` extension. The directory is the upload directory without one trailing slash. |
| Views.UploadLocation | src/views.py:106 | The last component of the written path is the file name. |
| Views.UploadAsWrittenDoublesExtension | src/views.py:111-114 | As written, the record of a file with an extension has a backing path whose last component repeats the extension, so it is not the file just written. |
| Views.UploadAsWrittenMissesWrittenFile | src/views.py:101-116 | As written, a file with an extension, or an upload directory ending in a slash (the default "C:/upload/"), gives a record whose backing path is not the path written. |
| Views.UploadNamesWrittenFile | src/views.py:106-116 | The corrected record's backing path is exactly the path `os.path.join` wrote the file to. |
| Views.FileInfoView.constructor | src/views.py:11-12 | The view reconciles through the session it is given. |
| Views.FileInfoView.SynchFiles | src/views.py:14-23 | Corrected (Findings rows 1, 2 and 4): for a walk of the requested directory: syncs as `Sync` describes, then returns the folder page of the synced table. |
| Views.FileUpdateUploadDelView.constructor | src/views.py:52-53 | The view works on the session and the file system it is given. |
| Views.FileUpdateUploadDelView.UpdateItem | src/views.py:55-96 | An unknown id gives not-found with nothing changed. Otherwise the merged row replaces the old one and is committed. Then, if the old backing file exists, it is moved to the new backing path and the row is returned. If not, not-found is returned and the committed row stays. |
| Views.FileUpdateUploadDelView.UploadFile | src/views.py:98-123 | Corrected (Findings row 3): the file is written into the upload directory, and the corrected record is appended under the next id and returned; nothing else changes. For a file name without a slash, the returned row's backing path exists. |
| Views.FileUpdateUploadDelView.DeleteItem | src/views.py:125-142 | Three outcomes. An unknown id gives not-found with nothing changed. A missing backing file gives not-found with the row kept. Otherwise the file and exactly that row are removed. |

## Left out

- `os.walk` is an input sequence of visits (root and file list). Its root is tied to the requested directory (`WalksFrom`: the first visit is the directory itself, every root starts with it); directory order and the `dirs` lists are not modelled. A directory lists each file name once; the count lemmas state this as `ListsOnce` and `DistinctNames` rather than derive it.
- `_add_files` and `_del_files_from_db` each walk the directory again. The model gives both passes the same walk and the same file system, a snapshot taken once.
- `os.path.exists` is membership in a set of path strings. Two spellings of one file (`"a//b"` and `"a/b"`) are different strings here.
- Paths follow POSIX `PurePosixPath` and `posixpath` as in Python 3.13 and earlier. `Paths.SuffixStart` gives a name ending in a dot no suffix, as pathlib did up to Python 3.13; Python 3.14 counts that dot as the suffix. Windows drive letters and backslash-separated components are only handled through the `replace("\\", "/")` the source applies.
- `os.path.getsize` and `round(bytes / 1024, 2)`: each walked file carries its size as a given real. An upload's size is a given number of bytes.
- `datetime.now()` is the parameter `now`. The `date_create` column default is not modelled.
- SQL `LIKE`: `%` and `_` inside the requested folder name are taken literally, and the folder name is compared case-sensitively (plain substring test). The database type comes from the environment (src/database.py:10-18): PostgreSQL compares like this, while MySQL's default collation ignores case.
- Integrations.DelPassCleans, Integrations.ReconcileEstablishes, Integrations.SyncEstablishes: these say that every row of a visited directory names an existing file, not every row under the walked root. Both passes query only the directories the walk visits (src/integrations.py:23-30 and 77-92). The rows of a subdirectory that was removed or renamed are therefore never deleted, in the source and in the corrected model alike (`ReconcileKeepsUnvisited`, `RemovedSubdirectoryKept`). A record whose directory has gone stays after a sync.
- Paths.Disk.Rename: the rename always succeeds. `os.rename` at src/views.py:92 can fail after the commit at src/views.py:87, for instance when the target directory does not exist or, on Windows, when the target exists. The row then stays committed with the new path while the file is not moved; `UpdateItem` does not model that outcome.
- Views.UploadInfo: an uploaded name is split as `os.path.splitext` splits it, while the reconciler splits a walked name with pathlib's `stem` and `suffix`. The two differ for names such as "a." and "..a", so a file uploaded under such a name and later found by a sync is split in two different ways.
- Queries without `ORDER BY` return rows in insertion order.
- The default arguments (`offset=0`, `limit=100`, absent update values) are not modelled; callers pass every argument. Offsets and limits are natural numbers; negative values are not modelled.
- Ids are unbounded integers; the 64-bit limit of the id column is not modelled.
- `os.makedirs` in `upload_file` is not modelled. The file system holds files only.
- Views.UploadInfo: the record stores the upload directory without one trailing slash, where the source stores `upload_path` as given. With the default "C:/upload/" the source's backing path is "C:/upload//a.txt", which the operating system resolves to the file written; paths here are compared as strings, so the corrected record drops the slash (`UploadNamesWrittenFile`).
- `db.refresh` in `upload_file` is not modelled separately; the returned row is the row as stored.
- Errors are `Result` / `Option` values. The HTTP status mapping and the FastAPI routing in src/app.py are not part of this model.
- Transaction failures, rollback on error and concurrent syncs are not modelled. The one exception is that deletions still marked when the session is dropped are discarded (`SyncAsWritten`).
- src/database.py (engine and URL configuration) is not part of this model.
- `FileInfoView` extends `SyncFileWithDb` in the source. Here it holds a reconciler attached to the same session instead.
- The as-written delete pass may mark a row that the add pass already marked. The model treats marks as a set and does not model SQLAlchemy's handling of a repeated `delete`.

## Findings

| source | as written | input that shows it | evidently intended | confidence | as-written member | corrected member |
|---|---|---|---|---|---|---|
| src/integrations.py:26-30 | The deletion queries of both passes select `path_file == str(root).replace("\\", "/")`. The insert pass stores `str(Path(os.path.join(root, file)).parent)` with backslashes replaced, which is pathlib's form of the root. | Root `"./d"`: its rows are stored under `"d"` but queried under `"./d"` (`Integrations.DotRootStoredDifferently`). A row under `"d"` whose file was deleted is never removed. A trailing slash or a doubled slash in the root does the same. | Query each directory by the form the insert pass stores. | not executed | Integrations.RawRootKeepsStaleRow | Integrations.SyncEstablishes |
| src/integrations.py:31-60 | `_add_files` marks missing rows with `delete` but commits nothing before the lookups. With `autoflush=False`, the lookup still finds the marked row and skips the file. The delete pass then removes the row. | Directory `d` holding `x.md`, and a row `(x, .txt, d)` whose file `d/x.txt` is gone. After the sync no row describes `d/x.md`, and a second sync adds it. | Commit the deletion block before the insert loop, as `SyncFileWithDb.PurgeDirectory` does. (With the lookup of row 4 corrected, a marked row no longer matches a file that exists.) | not executed | Integrations.UncommittedDeleteHidesFile | Integrations.SyncFileWithDb.SyncLocalStorageWithDb |
| src/views.py:111-114 | `upload_file` stores `name=file.filename` (extension included) and `extension=os.path.splitext(file.filename)[1]`. The backing path `path_file/name+extension` then repeats the extension. | Uploading `a.txt`: the row's backing path ends in `a.txt.txt`, so `update_item` and `delete_item` on that row report the file missing. | Store the name without its extension, split as `os.path.splitext` splits it. | not executed | Views.UploadAsWrittenDoublesExtension | Views.UploadNamesWrittenFile |
| src/integrations.py:53-60 | The insert loop's lookup filters on `name` (the stem) and `path_file` only, so any row with the file's stem in its directory counts as the file's row. | Directory `d` holding `x.txt` and `x.md`, and a row `(x, .txt, d)` for `d/x.txt`. After the sync no row describes `d/x.md`. | Filter on the extension too, as `SyncFileWithDb.StageFile` does. | not executed | Integrations.OtherExtensionHidesFile | Integrations.SyncEstablishes |
