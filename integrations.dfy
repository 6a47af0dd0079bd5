/** The folder-to-database reconciliation of `SyncFileWithDb`: for every
    directory of a walk, delete the rows whose file is gone and insert rows
    for the files not yet stored, staging the inserts in batches.

    The walk (`os.walk`) is an input sequence of visits, and the file system
    is the set of path strings that exist; the reconciliation only reads it.
    The specification functions below give the table each step leaves; the
    class `SyncFileWithDb` runs the loops of the source against a `Session`
    and is proved to leave exactly that table. */
module Integrations {
  import opened Paths
  import opened Models
  import opened Store

  /** One file of a directory listing, with the size the insert pass stores for it. */
  datatype WalkFile = WalkFile(name: string, size: real)

  /** One `(root, dirs, files)` triple of the walk; subdirectories come as
      visits of their own. */
  datatype Visit = Visit(root: string, files: seq<WalkFile>)

  /** The staging list is flushed once it holds this many rows. */
  const BatchLimit: nat := 7000

  /** The flush rule, checked after file `i` of `count` with `staged` rows waiting. */
  predicate ShouldFlush(staged: nat, i: nat, count: nat) {
    (staged >= BatchLimit && i < count - 2) || (i == count - 1 && staged > 0)
  }

  /** The row the insert pass prepares for file `f` of directory `dir`. */
  function Candidate(dir: string, f: WalkFile): FileInfo {
    FileInfo(Stem(f.name), Suffix(f.name), dir, f.size)
  }

  /** A row inserted for a file names that very file as its backing path. */
  lemma CandidatePath(dir: string, f: WalkFile)
    ensures InfoPath(Candidate(dir, f)) == dir + "/" + f.name
  {
    StemSuffixSplit(f.name);
  }

  /** A lookup that finds nothing in a table finds nothing in a part of it. */
  lemma NotFoundWithin(rows: seq<FileRecord>, sub: seq<FileRecord>, c: FileInfo, dir: string, key: Key)
    requires forall x :: x in sub ==> x in rows
    requires FindFile(rows, c.name, c.extension, dir, key).None?
    ensures FindFile(sub, c.name, c.extension, dir, key).None?
  {
    FindFileExact(rows, c.name, c.extension, dir, key);
    FindFileExact(sub, c.name, c.extension, dir, key);
  }

  /** The insert loop's state over one directory: the table, the ids marked
      for deletion and not yet committed, the staging list, and, as a record
      of what happened, every row staged so far and every batch flushed. */
  datatype Staging = Staging(
    table: Table,
    pending: set<int>,
    batch: seq<FileInfo>,
    staged: seq<FileInfo>,
    flushes: seq<seq<FileInfo>>)

  function Start(t: Table): Staging {
    Staging(t, {}, [], [], [])
  }

  /** One iteration of the insert loop, for file `i`. The lookup consults the
      table only: rows waiting in the batch are not seen. A flush saves the
      batch and commits, which also applies the pending deletions. */
  function StepFile(s: Staging, dir: string, files: seq<WalkFile>, i: nat, key: Key): Staging
    requires i < |files|
  {
    var c := Candidate(dir, files[i]);
    var isNew := FindFile(s.table.rows, c.name, c.extension, dir, key).None?;
    var batch := if isNew then s.batch + [c] else s.batch;
    var staged := if isNew then s.staged + [c] else s.staged;
    if ShouldFlush(|batch|, i, |files|) then
      Staging(CommitDeletes(BulkSave(s.table, batch), s.pending), {}, [], staged, s.flushes + [batch])
    else
      Staging(s.table, s.pending, batch, staged, s.flushes)
  }

  /** The state after the first `k` files. */
  function RunFiles(s: Staging, dir: string, files: seq<WalkFile>, k: nat, key: Key): Staging
    requires k <= |files|
  {
    if k == 0 then s else StepFile(RunFiles(s, dir, files, k - 1, key), dir, files, k - 1, key)
  }

  lemma RunFilesStep(s0: Staging, dir: string, files: seq<WalkFile>, k: nat, key: Key)
    requires 0 < k <= |files|
    ensures RunFiles(s0, dir, files, k, key) == StepFile(RunFiles(s0, dir, files, k - 1, key), dir, files, k - 1, key)
  {
  }

  /** What holds before the insert loop and is kept by every iteration
      holds after `k` files; `inv(s, i)` is the claim after `i` files. */
  lemma {:induction false} RunFilesKeeps(inv: (Staging, nat) -> bool, s0: Staging, dir: string, files: seq<WalkFile>, k: nat, key: Key)
    requires k <= |files| && inv(s0, 0)
    requires forall s: Staging, i: nat :: i < |files| && inv(s, i) ==> inv(StepFile(s, dir, files, i, key), i + 1)
    ensures inv(RunFiles(s0, dir, files, k, key), k)
  {
    if k > 0 {
      RunFilesKeeps(inv, s0, dir, files, k - 1, key);
      RunFilesStep(s0, dir, files, k, key);
    }
  }

  function Concat(bs: seq<seq<FileInfo>>): seq<FileInfo> {
    if bs == [] then [] else Concat(bs[..|bs| - 1]) + bs[|bs| - 1]
  }

  lemma ConcatAppend(bs: seq<seq<FileInfo>>, b: seq<FileInfo>)
    ensures Concat(bs + [b]) == Concat(bs) + b
  {
    assert (bs + [b])[..|bs|] == bs;
  }

  /** The staging list holds at most 7000 rows after `k` of `count` files,
      fewer than 7000 while two or more files remain, and every flushed batch
      holds between 1 and 7001 rows. */
  predicate Bounded(s: Staging, count: nat, k: nat) {
    && |s.batch| <= BatchLimit
    && (k + 1 < count ==> |s.batch| < BatchLimit)
    && forall m :: 0 <= m < |s.flushes| ==> 1 <= |s.flushes[m]| <= BatchLimit + 1
  }

  lemma BoundedStep(s: Staging, dir: string, files: seq<WalkFile>, k: nat, key: Key)
    requires 0 < k <= |files| && Bounded(s, |files|, k - 1)
    ensures Bounded(StepFile(s, dir, files, k - 1, key), |files|, k)
  {
    var s' := StepFile(s, dir, files, k - 1, key);
    var c := Candidate(dir, files[k - 1]);
    var batch := if FindFile(s.table.rows, c.name, c.extension, dir, key).None? then s.batch + [c] else s.batch;
    if ShouldFlush(|batch|, k - 1, |files|) {
      assert s'.flushes == s.flushes + [batch] && s'.batch == [];
    } else {
      assert s'.flushes == s.flushes && s'.batch == batch;
    }
  }

  /** The staging bound holds after every file of a directory. */
  lemma StagingBound(s0: Staging, dir: string, files: seq<WalkFile>, k: nat, key: Key)
    requires k <= |files| && s0.batch == [] && s0.flushes == []
    ensures Bounded(RunFiles(s0, dir, files, k, key), |files|, k)
  {
    forall s: Staging, i: nat | i < |files| && Bounded(s, |files|, i)
      ensures Bounded(StepFile(s, dir, files, i, key), |files|, i + 1)
    {
      BoundedStep(s, dir, files, i + 1, key);
    }
    RunFilesKeeps((s: Staging, i: nat) => Bounded(s, |files|, i), s0, dir, files, k, key);
  }

  /** After the last file of a non-empty directory the staging list is
      empty: nothing is carried into the next directory. */
  lemma DirectoryDrains(s0: Staging, dir: string, files: seq<WalkFile>, key: Key)
    requires files != []
    ensures RunFiles(s0, dir, files, |files|, key).batch == []
  {
    var s := RunFiles(s0, dir, files, |files| - 1, key);
    assert RunFiles(s0, dir, files, |files|, key) == StepFile(s, dir, files, |files| - 1, key);
  }

  /** Nothing staged is dropped: the flushed batches followed by the waiting
      batch are exactly the rows staged, in order, all for directory `dir`. */
  ghost predicate Accounted(s: Staging, dir: string) {
    && Concat(s.flushes) + s.batch == s.staged
    && forall m :: 0 <= m < |s.staged| ==> s.staged[m].pathFile == dir
  }

  lemma AccountedStep(s: Staging, dir: string, files: seq<WalkFile>, i: nat, key: Key)
    requires i < |files| && Accounted(s, dir)
    ensures Accounted(StepFile(s, dir, files, i, key), dir)
  {
    var s' := StepFile(s, dir, files, i, key);
    var c := Candidate(dir, files[i]);
    var isNew := FindFile(s.table.rows, c.name, c.extension, dir, key).None?;
    var batch := if isNew then s.batch + [c] else s.batch;
    var staged := if isNew then s.staged + [c] else s.staged;
    assert Concat(s.flushes) + batch == staged by {
      if isNew {
        assert Concat(s.flushes) + (s.batch + [c]) == (Concat(s.flushes) + s.batch) + [c];
      }
    }
    assert forall m :: 0 <= m < |staged| ==> staged[m].pathFile == dir by {
      if isNew {
        assert forall m :: 0 <= m < |s.staged| ==> staged[m] == s.staged[m];
      }
    }
    if ShouldFlush(|batch|, i, |files|) {
      ConcatAppend(s.flushes, batch);
      assert s'.flushes == s.flushes + [batch] && s'.batch == [] && s'.staged == staged;
    } else {
      assert s'.flushes == s.flushes && s'.batch == batch && s'.staged == staged;
    }
  }

  /** The insert loop drops no staged row, whatever the batch rule does. */
  lemma NothingDropped(s0: Staging, dir: string, files: seq<WalkFile>, k: nat, key: Key)
    requires k <= |files| && s0.batch == [] && s0.staged == [] && s0.flushes == []
    ensures Accounted(RunFiles(s0, dir, files, k, key), dir)
  {
    forall s: Staging, i: nat | i < |files| && Accounted(s, dir)
      ensures Accounted(StepFile(s, dir, files, i, key), dir)
    {
      AccountedStep(s, dir, files, i, key);
    }
    RunFilesKeeps((s: Staging, i: nat) => Accounted(s, dir), s0, dir, files, k, key);
  }

  lemma PrefixMembers(a: seq<FileRecord>, b: seq<FileRecord>)
    requires |a| <= |b| && b[..|a|] == a
    ensures forall x :: x in a ==> x in b
  {
    forall x | x in a ensures x in b {
      var i :| 0 <= i < |a| && a[i] == x;
      assert b[i] == x;
    }
  }

  /** Starting from the committed table `t`, nothing is pending, the table
      is `t` with every flushed batch appended, and only rows the lookup
      does not find in `t` were staged. */
  ghost predicate InsertedFrom(t: Table, s: Staging, dir: string, key: Key) {
    && s.pending == {}
    && s.table == BulkSave(t, Concat(s.flushes))
    && forall m :: 0 <= m < |s.staged| ==> FindFile(t.rows, s.staged[m].name, s.staged[m].extension, dir, key).None?
  }

  /** One file of the insert loop keeps `InsertedFrom`. */
  lemma InsertStep(t: Table, s: Staging, dir: string, files: seq<WalkFile>, i: nat, key: Key)
    requires i < |files| && InsertedFrom(t, s, dir, key)
    ensures InsertedFrom(t, StepFile(s, dir, files, i, key), dir, key)
  {
    var s' := StepFile(s, dir, files, i, key);
    var c := Candidate(dir, files[i]);
    var isNew := FindFile(s.table.rows, c.name, c.extension, dir, key).None?;
    var batch := if isNew then s.batch + [c] else s.batch;
    if isNew {
      PrefixMembers(t.rows, s.table.rows);
      NotFoundWithin(s.table.rows, t.rows, c, dir, key);
      assert s'.staged == s.staged + [c];
    } else {
      assert s'.staged == s.staged;
    }
    if ShouldFlush(|batch|, i, |files|) {
      var saved := BulkSave(s.table, batch);
      RemoveNoIds(saved.rows);
      assert s'.table == saved;
      BulkSaveTwice(t, Concat(s.flushes), batch);
      ConcatAppend(s.flushes, batch);
      assert s'.flushes == s.flushes + [batch];
    } else {
      assert s'.table == s.table && s'.flushes == s.flushes && s'.pending == s.pending;
    }
  }

  /** Each flush of the insert loop appends exactly the staged rows in order
      and leaves the rows already there untouched; a row is staged only if
      the lookup found nothing for it in the starting table. */
  lemma {:induction false} InsertsFromStart(t: Table, dir: string, files: seq<WalkFile>, k: nat, key: Key)
    requires k <= |files|
    ensures InsertedFrom(t, RunFiles(Start(t), dir, files, k, key), dir, key)
  {
    assert Concat([]) == [];
    assert BulkSave(t, []).rows == t.rows + [];
    forall s: Staging, i: nat | i < |files| && InsertedFrom(t, s, dir, key)
      ensures InsertedFrom(t, StepFile(s, dir, files, i, key), dir, key)
    {
      InsertStep(t, s, dir, files, i, key);
    }
    RunFilesKeeps((s: Staging, i: nat) => InsertedFrom(t, s, dir, key), Start(t), dir, files, k, key);
  }

  /** The lookup as written never sees the waiting batch: two new files of
      one directory with the same stem ("x.txt" and "x.md") are both staged
      and both inserted, giving two rows with one (name, directory). */
  lemma SameStemBothStaged(t: Table, dir: string, f: WalkFile, g: WalkFile)
    requires Stem(f.name) == Stem(g.name)
    requires FindFile(t.rows, Stem(f.name), Suffix(f.name), dir, NameOnly).None?
    ensures RunFiles(Start(t), dir, [f, g], 2, NameOnly).table == BulkSave(t, [Candidate(dir, f), Candidate(dir, g)])
  {
    var files := [f, g];
    FindFileExact(t.rows, Stem(f.name), Suffix(f.name), dir, NameOnly);
    FindFileExact(t.rows, Stem(g.name), Suffix(g.name), dir, NameOnly);
    RunFilesStep(Start(t), dir, files, 1, NameOnly);
    var s1 := RunFiles(Start(t), dir, files, 1, NameOnly);
    assert !ShouldFlush(1, 0, 2);
    assert s1.table == t && s1.batch == [Candidate(dir, f)];
    RunFilesStep(Start(t), dir, files, 2, NameOnly);
    assert ShouldFlush(2, 1, 2);
    var saved := BulkSave(t, [Candidate(dir, f), Candidate(dir, g)]);
    RemoveNoIds(saved.rows);
  }

  /** Rows of `dir` all name files that exist. */
  ghost predicate Clean(rows: seq<FileRecord>, dir: string, paths: set<string>) {
    forall x :: x in rows && x.pathFile == dir ==> BackingPath(x) in paths
  }

  /** Some row records file `name` of `dir`: its directory, its stem and
      its suffix, naming a file that exists. */
  ghost predicate CoveredBy(rows: seq<FileRecord>, dir: string, name: string, paths: set<string>) {
    exists x :: x in rows && x.pathFile == dir && x.name == Stem(name) && x.extension == Suffix(name) && BackingPath(x) in paths
  }

  /** Every row whose file exists survives from `before` to `after`. */
  ghost predicate Keeps(before: seq<FileRecord>, after: seq<FileRecord>, paths: set<string>) {
    forall x :: x in before && BackingPath(x) in paths ==> x in after
  }

  lemma BulkSaveMember(t: Table, batch: seq<FileInfo>, x: FileRecord)
    requires x in BulkSave(t, batch).rows
    ensures x in t.rows || exists m :: 0 <= m < |batch| && x == Persist(batch[m], t.nextId + m)
  {
    var r := BulkSave(t, batch).rows;
    BulkSaveAppends(t, batch);
    var i :| 0 <= i < |r| && r[i] == x;
    if i < |t.rows| {
      assert r[..|t.rows|][i] == x;
    } else {
      assert x == Persist(batch[i - |t.rows|], t.nextId + (i - |t.rows|));
    }
  }

  /** A flush of rows for `dir` whose files exist keeps `dir` clean and turns
      every waiting row into a stored one. */
  lemma FlushKeepsCover(t: Table, batch: seq<FileInfo>, dir: string, paths: set<string>)
    requires Clean(t.rows, dir, paths)
    requires forall c :: c in batch ==> c.pathFile == dir && InfoPath(c) in paths
    ensures Clean(BulkSave(t, batch).rows, dir, paths)
    ensures forall x :: x in t.rows ==> x in BulkSave(t, batch).rows
    ensures forall f: WalkFile :: Candidate(dir, f) in batch ==> CoveredBy(BulkSave(t, batch).rows, dir, f.name, paths)
  {
    var r := BulkSave(t, batch).rows;
    BulkSaveAppends(t, batch);
    PrefixMembers(t.rows, r);
    forall x | x in r && x.pathFile == dir ensures BackingPath(x) in paths {
      BulkSaveMember(t, batch, x);
      if x !in t.rows {
        var m :| 0 <= m < |batch| && x == Persist(batch[m], t.nextId + m);
        assert batch[m] in batch;
      }
    }
    forall f: WalkFile | Candidate(dir, f) in batch ensures CoveredBy(r, dir, f.name, paths) {
      var c := Candidate(dir, f);
      var m :| 0 <= m < |batch| && batch[m] == c;
      assert r[|t.rows| + m] == Persist(c, t.nextId + m);
      assert Persist(c, t.nextId + m) in r;
    }
  }

  /** Every row waiting in the batch belongs to `dir` and names an existing file. */
  ghost predicate BatchReady(batch: seq<FileInfo>, dir: string, paths: set<string>) {
    forall b :: b in batch ==> b.pathFile == dir && InfoPath(b) in paths
  }

  /** Each of the first `k` files is stored under an existing row or waits in the batch. */
  ghost predicate FilesCovered(rows: seq<FileRecord>, batch: seq<FileInfo>, dir: string,
                               files: seq<WalkFile>, k: nat, paths: set<string>)
    requires k <= |files|
  {
    forall j :: 0 <= j < k ==>
      CoveredBy(rows, dir, files[j].name, paths) || Candidate(dir, files[j]) in batch
  }

  /** The coverage invariant of the insert loop after `k` files. */
  ghost predicate Covering(s: Staging, dir: string, files: seq<WalkFile>, k: nat, paths: set<string>)
    requires k <= |files|
  {
    Clean(s.table.rows, dir, paths) && BatchReady(s.batch, dir, paths)
    && FilesCovered(s.table.rows, s.batch, dir, files, k, paths)
  }

  /** Staging file `i` keeps the batch ready and covers the first `i + 1` files. */
  lemma StageCovers(s: Staging, dir: string, files: seq<WalkFile>, paths: set<string>, i: nat)
    requires i < |files| && Covering(s, dir, files, i, paths)
    requires dir + "/" + files[i].name in paths
    ensures var c := Candidate(dir, files[i]);
      var batch := if FindFile(s.table.rows, c.name, c.extension, dir, NameAndExtension).None? then s.batch + [c] else s.batch;
      BatchReady(batch, dir, paths) && FilesCovered(s.table.rows, batch, dir, files, i + 1, paths)
  {
    var c := Candidate(dir, files[i]);
    CandidatePath(dir, files[i]);
    var found := FindFile(s.table.rows, c.name, c.extension, dir, NameAndExtension);
    FindFileExact(s.table.rows, c.name, c.extension, dir, NameAndExtension);
    var batch := if found.None? then s.batch + [c] else s.batch;
    assert CoveredBy(s.table.rows, dir, files[i].name, paths) || c in batch by {
      if found.Some? {
        assert found.value in s.table.rows;
      }
    }
    forall j | 0 <= j < i + 1
      ensures CoveredBy(s.table.rows, dir, files[j].name, paths) || Candidate(dir, files[j]) in batch
    {
      if j < i && !CoveredBy(s.table.rows, dir, files[j].name, paths) {
        assert Candidate(dir, files[j]) in s.batch;
      }
    }
  }

  lemma CoverStep(s: Staging, dir: string, files: seq<WalkFile>, paths: set<string>, i: nat)
    requires i < |files| && s.pending == {} && Covering(s, dir, files, i, paths)
    requires dir + "/" + files[i].name in paths
    ensures Covering(StepFile(s, dir, files, i, NameAndExtension), dir, files, i + 1, paths)
  {
    var s' := StepFile(s, dir, files, i, NameAndExtension);
    var c := Candidate(dir, files[i]);
    var batch := if FindFile(s.table.rows, c.name, c.extension, dir, NameAndExtension).None? then s.batch + [c] else s.batch;
    StageCovers(s, dir, files, paths, i);
    if ShouldFlush(|batch|, i, |files|) {
      var saved := BulkSave(s.table, batch);
      RemoveNoIds(saved.rows);
      assert s'.table == saved && s'.batch == [];
      FlushKeepsCover(s.table, batch, dir, paths);
      forall j | 0 <= j < i + 1 ensures CoveredBy(saved.rows, dir, files[j].name, paths) {
        if CoveredBy(s.table.rows, dir, files[j].name, paths) {
          CoveredKept(s.table.rows, saved.rows, dir, files[j].name, paths);
        } else {
          assert Candidate(dir, files[j]) in batch;
        }
      }
    } else {
      assert s'.table == s.table && s'.batch == batch;
    }
  }

  /** In a directory whose stored rows all exist and whose listed files
      exist, every file processed so far is covered by an existing row or
      waits in the staging list, and the directory stays clean. */
  lemma RunFilesCovers(t: Table, dir: string, files: seq<WalkFile>, paths: set<string>, k: nat)
    requires k <= |files|
    requires Clean(t.rows, dir, paths)
    requires forall j :: 0 <= j < |files| ==> dir + "/" + files[j].name in paths
    ensures Covering(RunFiles(Start(t), dir, files, k, NameAndExtension), dir, files, k, paths)
  {
    forall s: Staging, i: nat | i < |files| && s.pending == {} && Covering(s, dir, files, i, paths)
      ensures StepFile(s, dir, files, i, NameAndExtension).pending == {}
        && Covering(StepFile(s, dir, files, i, NameAndExtension), dir, files, i + 1, paths)
    {
      CoverStep(s, dir, files, paths, i);
    }
    RunFilesKeeps((s: Staging, i: nat) => i <= |files| && s.pending == {} && Covering(s, dir, files, i, paths),
      Start(t), dir, files, k, NameAndExtension);
  }

  /** Deletes the rows of `dir` whose backing file is missing. */
  function PurgeMissing(t: Table, dir: string, paths: set<string>): Table {
    CommitDeletes(t, MissingIds(ByDirectory(t.rows, dir), paths))
  }

  lemma SameIdSameRow(rows: seq<FileRecord>, x: FileRecord, y: FileRecord)
    requires IdsDistinct(rows) && x in rows && y in rows && x.fileId == y.fileId
    ensures x == y
  {
    var i :| 0 <= i < |rows| && rows[i] == x;
    var j :| 0 <= j < |rows| && rows[j] == y;
    assert i == j;
  }

  /** A row is deleted exactly when it is in `dir` and its file is missing;
      rows of other directories are unaffected. */
  lemma PurgeMissingExact(t: Table, dir: string, paths: set<string>)
    requires WellFormed(t)
    ensures var r := PurgeMissing(t, dir, paths);
      && WellFormed(r) && r.nextId == t.nextId
      && forall x :: x in r.rows <==> x in t.rows && (x.pathFile != dir || BackingPath(x) in paths)
  {
    var ids := MissingIds(ByDirectory(t.rows, dir), paths);
    ByDirectoryExact(t.rows, dir);
    MissingIdsExact(ByDirectory(t.rows, dir), paths);
    RemoveIdsExact(t.rows, ids);
    CommitKeepsWellFormed(t, ids);
    forall x | x in t.rows ensures x.fileId in ids <==> (x.pathFile == dir && BackingPath(x) !in paths) {
      if x.fileId in ids {
        var y :| y in ByDirectory(t.rows, dir) && y.fileId == x.fileId && BackingPath(y) !in paths;
        SameIdSameRow(t.rows, x, y);
      }
    }
  }

  /** The walk is `os.walk(top)`: it visits `top` itself first, and every
      root it visits is spelled with `top` in front. */
  predicate WalksFrom(top: string, walk: seq<Visit>) {
    && (walk != [] ==> walk[0].root == top)
    && forall w :: 0 <= w < |walk| ==> top <= walk[w].root
  }

  /** A visit as the passes use it: the directory stored for its root, and its files. */
  datatype Listing = Listing(dir: string, files: seq<WalkFile>)

  /** Every visit of the walk with its root turned into the stored directory. */
  function Listings(walk: seq<Visit>): (ls: seq<Listing>)
    ensures |ls| == |walk|
    ensures forall w :: 0 <= w < |walk| ==> ls[w].files == walk[w].files
  {
    seq(|walk|, w requires 0 <= w < |walk| => Listing(StoredDirectory(walk[w].root), walk[w].files))
  }

  /** The add pass for one directory: purge it and commit, then run the
      insert loop with the whole-file lookup. */
  function AddListing(t: Table, l: Listing, paths: set<string>): Table {
    RunFiles(Start(PurgeMissing(t, l.dir, paths)), l.dir, l.files, |l.files|, NameAndExtension).table
  }

  /** The tables a pass goes through when `step` handles the directories
      one after another, as the loops of both passes do. */
  function Trace<E>(t: Table, xs: seq<E>, step: (Table, E) -> Table, n: nat): (r: seq<Table>)
    requires n <= |xs|
    ensures |r| == n + 1 && r[0] == t
  {
    if n == 0 then [t]
    else
      var p := Trace(t, xs, step, n - 1);
      p + [step(p[n - 1], xs[n - 1])]
  }

  /** What holds of the starting table and is kept by every step holds of
      the table after `n` steps; `inv(r, i)` is the claim after `i` steps. */
  lemma {:induction false} TraceKeeps<E>(inv: (Table, nat) -> bool, t: Table, xs: seq<E>, step: (Table, E) -> Table, n: nat)
    requires n <= |xs| && inv(t, 0)
    requires forall r: Table, i: nat :: i < |xs| && inv(r, i) ==> inv(step(r, xs[i]), i + 1)
    ensures inv(Trace(t, xs, step, n)[n], n)
  {
    if n > 0 {
      TraceKeeps(inv, t, xs, step, n - 1);
    }
  }

  /** One directory of the add pass. */
  function AddStep(paths: set<string>): (Table, Listing) -> Table {
    (t: Table, l: Listing) => AddListing(t, l, paths)
  }

  /** One directory of the delete pass. */
  function DelStep(paths: set<string>): (Table, Listing) -> Table {
    (t: Table, l: Listing) => PurgeMissing(t, l.dir, paths)
  }

  /** `_add_files`: the add pass over the first `k` directories. */
  function AddPass(t: Table, ls: seq<Listing>, paths: set<string>, k: nat): Table
    requires k <= |ls|
  {
    Trace(t, ls, AddStep(paths), k)[k]
  }

  /** `_del_files_from_db`: the delete pass over the first `k` directories. */
  function DelPass(t: Table, ls: seq<Listing>, paths: set<string>, k: nat): Table
    requires k <= |ls|
  {
    Trace(t, ls, DelStep(paths), k)[k]
  }

  /** The add pass over every directory, then the delete pass over every directory. */
  function Reconcile(t: Table, ls: seq<Listing>, paths: set<string>): Table {
    DelPass(AddPass(t, ls, paths, |ls|), ls, paths, |ls|)
  }

  /** `sync_local_storage_with_db`. */
  function Sync(t: Table, walk: seq<Visit>, paths: set<string>): Table {
    Reconcile(t, Listings(walk), paths)
  }

  /** The walk and the file system are one snapshot: every listed file
      exists at the path formed from its stored directory. */
  ghost predicate Consistent(ls: seq<Listing>, paths: set<string>) {
    forall w, j :: 0 <= w < |ls| && 0 <= j < |ls[w].files| ==> ls[w].dir + "/" + ls[w].files[j].name in paths
  }

  /** Every file of the listing is recorded by a row of its directory, and
      every row of the directory names an existing file. */
  ghost predicate ListingInSync(rows: seq<FileRecord>, l: Listing, paths: set<string>) {
    && Clean(rows, l.dir, paths)
    && forall j :: 0 <= j < |l.files| ==> CoveredBy(rows, l.dir, l.files[j].name, paths)
  }

  /** The store agrees with every directory of the walk. */
  ghost predicate InSync(rows: seq<FileRecord>, ls: seq<Listing>, paths: set<string>) {
    forall w :: 0 <= w < |ls| ==> ListingInSync(rows, ls[w], paths)
  }

  lemma CoveredKept(before: seq<FileRecord>, after: seq<FileRecord>, dir: string, name: string, paths: set<string>)
    requires CoveredBy(before, dir, name, paths) && Keeps(before, after, paths)
    ensures CoveredBy(after, dir, name, paths)
  {
    var x :| x in before && x.pathFile == dir && x.name == Stem(name) && x.extension == Suffix(name) && BackingPath(x) in paths;
    assert x in after;
  }

  /** One directory of the add pass keeps ids unique, keeps every row whose
      file exists, and covers every file it lists. */
  lemma AddListingCovers(t: Table, l: Listing, paths: set<string>)
    requires WellFormed(t)
    requires forall j :: 0 <= j < |l.files| ==> l.dir + "/" + l.files[j].name in paths
    ensures var r := AddListing(t, l, paths);
      && WellFormed(r) && Keeps(t.rows, r.rows, paths)
      && forall j :: 0 <= j < |l.files| ==> CoveredBy(r.rows, l.dir, l.files[j].name, paths)
  {
    var p := PurgeMissing(t, l.dir, paths);
    PurgeMissingExact(t, l.dir, paths);
    InsertsFromStart(p, l.dir, l.files, |l.files|, NameAndExtension);
    var s := RunFiles(Start(p), l.dir, l.files, |l.files|, NameAndExtension);
    BulkSaveKeepsWellFormed(p, Concat(s.flushes));
    RunFilesCovers(p, l.dir, l.files, paths, |l.files|);
    if l.files != [] {
      DirectoryDrains(Start(p), l.dir, l.files, NameAndExtension);
    }
  }

  /** Every file of the first `k` directories is covered by an existing row. */
  ghost predicate CoveredUpTo(rows: seq<FileRecord>, ls: seq<Listing>, paths: set<string>, k: nat)
    requires k <= |ls|
  {
    forall w, j :: 0 <= w < k && 0 <= j < |ls[w].files| ==>
      CoveredBy(rows, ls[w].dir, ls[w].files[j].name, paths)
  }

  /** What the add pass keeps true after `k` directories, starting from `origin`. */
  ghost predicate Added(origin: Table, r: Table, ls: seq<Listing>, paths: set<string>, k: nat)
    requires k <= |ls|
  {
    WellFormed(r) && Keeps(origin.rows, r.rows, paths) && CoveredUpTo(r.rows, ls, paths, k)
  }

  lemma AddPassStep(t: Table, ls: seq<Listing>, paths: set<string>, k: nat)
    requires 0 < k <= |ls|
    ensures AddPass(t, ls, paths, k) == AddListing(AddPass(t, ls, paths, k - 1), ls[k - 1], paths)
  {
  }

  lemma AddedStep(origin: Table, prev: Table, ls: seq<Listing>, paths: set<string>, k: nat)
    requires 0 < k <= |ls| && Consistent(ls, paths) && Added(origin, prev, ls, paths, k - 1)
    ensures Added(origin, AddListing(prev, ls[k - 1], paths), ls, paths, k)
  {
    var l := ls[k - 1];
    var r := AddListing(prev, l, paths);
    AddListingCovers(prev, l, paths);
    forall w, j | 0 <= w < k && 0 <= j < |ls[w].files|
      ensures CoveredBy(r.rows, ls[w].dir, ls[w].files[j].name, paths)
    {
      if w < k - 1 {
        CoveredKept(prev.rows, r.rows, ls[w].dir, ls[w].files[j].name, paths);
      }
    }
  }

  /** The add pass keeps ids unique, keeps every row whose file exists, and
      covers every file of every directory it has visited. */
  lemma {:induction false} AddPassCovers(t: Table, ls: seq<Listing>, paths: set<string>, k: nat)
    requires k <= |ls| && WellFormed(t) && Consistent(ls, paths)
    ensures Added(t, AddPass(t, ls, paths, k), ls, paths, k)
  {
    if k > 0 {
      AddPassCovers(t, ls, paths, k - 1);
      AddedStep(t, AddPass(t, ls, paths, k - 1), ls, paths, k);
      AddPassStep(t, ls, paths, k);
    }
  }

  /** Every row of `a` is a row of `b`. */
  ghost predicate Within(a: seq<FileRecord>, b: seq<FileRecord>) {
    forall x :: x in a ==> x in b
  }

  lemma CleanSubset(rows: seq<FileRecord>, sub: seq<FileRecord>, dir: string, paths: set<string>)
    requires Clean(rows, dir, paths) && Within(sub, rows)
    ensures Clean(sub, dir, paths)
  {
  }

  /** One purge only removes rows, keeps every row whose file exists and
      leaves its directory clean. */
  lemma PurgeStep(origin: seq<FileRecord>, prev: Table, dir: string, paths: set<string>)
    requires WellFormed(prev) && Keeps(origin, prev.rows, paths) && Within(prev.rows, origin)
    ensures var r := PurgeMissing(prev, dir, paths);
      && WellFormed(r) && Keeps(origin, r.rows, paths) && Within(r.rows, origin)
      && Within(r.rows, prev.rows) && Clean(r.rows, dir, paths)
  {
    PurgeMissingExact(prev, dir, paths);
  }

  /** Every row of the first `k` directories names an existing file. */
  ghost predicate CleanUpTo(rows: seq<FileRecord>, ls: seq<Listing>, paths: set<string>, k: nat)
    requires k <= |ls|
  {
    forall w :: 0 <= w < k ==> Clean(rows, ls[w].dir, paths)
  }

  /** What the delete pass keeps true after `k` directories, starting from `origin`. */
  ghost predicate Purged(origin: Table, r: Table, ls: seq<Listing>, paths: set<string>, k: nat)
    requires k <= |ls|
  {
    WellFormed(r) && Keeps(origin.rows, r.rows, paths) && Within(r.rows, origin.rows)
    && CleanUpTo(r.rows, ls, paths, k)
  }

  lemma DelPassStep(t: Table, ls: seq<Listing>, paths: set<string>, k: nat)
    requires 0 < k <= |ls|
    ensures DelPass(t, ls, paths, k) == PurgeMissing(DelPass(t, ls, paths, k - 1), ls[k - 1].dir, paths)
  {
  }

  lemma PurgedStep(origin: Table, prev: Table, ls: seq<Listing>, paths: set<string>, k: nat)
    requires 0 < k <= |ls| && Purged(origin, prev, ls, paths, k - 1)
    ensures Purged(origin, PurgeMissing(prev, ls[k - 1].dir, paths), ls, paths, k)
  {
    var r := PurgeMissing(prev, ls[k - 1].dir, paths);
    PurgeStep(origin.rows, prev, ls[k - 1].dir, paths);
    forall w | 0 <= w < k ensures Clean(r.rows, ls[w].dir, paths) {
      if w < k - 1 {
        CleanSubset(prev.rows, r.rows, ls[w].dir, paths);
      }
    }
  }

  /** The delete pass only removes rows, keeps every row whose file exists,
      and leaves every visited directory clean. */
  lemma {:induction false} DelPassCleans(t: Table, ls: seq<Listing>, paths: set<string>, k: nat)
    requires k <= |ls| && WellFormed(t)
    ensures Purged(t, DelPass(t, ls, paths, k), ls, paths, k)
  {
    if k > 0 {
      DelPassCleans(t, ls, paths, k - 1);
      PurgedStep(t, DelPass(t, ls, paths, k - 1), ls, paths, k);
      DelPassStep(t, ls, paths, k);
    }
  }

  /** After reconciling with a consistent snapshot the store agrees with it. */
  lemma ReconcileEstablishes(t: Table, ls: seq<Listing>, paths: set<string>)
    requires WellFormed(t) && Consistent(ls, paths)
    ensures WellFormed(Reconcile(t, ls, paths)) && InSync(Reconcile(t, ls, paths).rows, ls, paths)
  {
    var a := AddPass(t, ls, paths, |ls|);
    AddPassCovers(t, ls, paths, |ls|);
    DelPassCleans(a, ls, paths, |ls|);
    var r := Reconcile(t, ls, paths);
    forall w | 0 <= w < |ls| ensures ListingInSync(r.rows, ls[w], paths) {
      forall j | 0 <= j < |ls[w].files| ensures CoveredBy(r.rows, ls[w].dir, ls[w].files[j].name, paths) {
        CoveredKept(a.rows, r.rows, ls[w].dir, ls[w].files[j].name, paths);
      }
    }
  }

  /** After a sync over a consistent snapshot the store agrees with the walk. */
  lemma SyncEstablishes(t: Table, walk: seq<Visit>, paths: set<string>)
    requires WellFormed(t) && Consistent(Listings(walk), paths)
    ensures WellFormed(Sync(t, walk, paths)) && InSync(Sync(t, walk, paths).rows, Listings(walk), paths)
  {
    ReconcileEstablishes(t, Listings(walk), paths);
  }

  /* Each file gets one row. The corrected lookup compares name, extension
     and directory, so a file that already has a row gains none, and the
     names of one listing are distinct, so a file without a row gains exactly
     one. The lemmas below count the rows that record each file. */

  /** Row `x` records file `name` of directory `dir`. */
  predicate Records(x: FileRecord, dir: string, name: string) {
    x.pathFile == dir && x.name == Stem(name) && x.extension == Suffix(name)
  }

  /** Row `c`, not yet saved, records file `name` of directory `dir`. */
  predicate InfoRecords(c: FileInfo, dir: string, name: string) {
    c.pathFile == dir && c.name == Stem(name) && c.extension == Suffix(name)
  }

  /** How many rows record file `name` of `dir`. */
  function Count(rows: seq<FileRecord>, dir: string, name: string): nat {
    if rows == [] then 0
    else (if Records(rows[0], dir, name) then 1 else 0) + Count(rows[1..], dir, name)
  }

  /** How many staged rows record file `name` of `dir`. */
  function CountInfo(infos: seq<FileInfo>, dir: string, name: string): nat {
    if infos == [] then 0
    else (if InfoRecords(infos[0], dir, name) then 1 else 0) + CountInfo(infos[1..], dir, name)
  }

  lemma {:induction false} CountAppend(a: seq<FileRecord>, b: seq<FileRecord>, dir: string, name: string)
    ensures Count(a + b, dir, name) == Count(a, dir, name) + Count(b, dir, name)
  {
    if a != [] {
      assert (a + b)[1..] == a[1..] + b;
      CountAppend(a[1..], b, dir, name);
    } else {
      assert a + b == b;
    }
  }

  lemma {:induction false} CountInfoAppend(a: seq<FileInfo>, b: seq<FileInfo>, dir: string, name: string)
    ensures CountInfo(a + b, dir, name) == CountInfo(a, dir, name) + CountInfo(b, dir, name)
  {
    if a != [] {
      assert (a + b)[1..] == a[1..] + b;
      CountInfoAppend(a[1..], b, dir, name);
    } else {
      assert a + b == b;
    }
  }

  /** Saving a batch adds the rows of the batch that record the file. */
  lemma {:induction false} CountPersisted(batch: seq<FileInfo>, id: int, dir: string, name: string)
    ensures Count(Persisted(batch, id), dir, name) == CountInfo(batch, dir, name)
  {
    if batch != [] {
      var r := Persisted(batch, id);
      assert r[0] == Persist(batch[0], id) && r[1..] == Persisted(batch[1..], id + 1);
      CountPersisted(batch[1..], id + 1, dir, name);
    }
  }

  lemma CountBulkSave(t: Table, batch: seq<FileInfo>, dir: string, name: string)
    ensures Count(BulkSave(t, batch).rows, dir, name) == Count(t.rows, dir, name) + CountInfo(batch, dir, name)
  {
    CountAppend(t.rows, Persisted(batch, t.nextId), dir, name);
    CountPersisted(batch, t.nextId, dir, name);
  }

  /** The whole-file lookup finds nothing exactly when no row records the file. */
  lemma {:induction false} CountZero(rows: seq<FileRecord>, dir: string, name: string)
    ensures Count(rows, dir, name) == 0 <==> FindFile(rows, Stem(name), Suffix(name), dir, NameAndExtension).None?
  {
    if rows != [] {
      CountZero(rows[1..], dir, name);
    }
  }

  /** Rows staged for one directory record no file of another. */
  lemma {:induction false} CountInfoElsewhere(infos: seq<FileInfo>, dir: string, d: string, name: string)
    requires d != dir && forall m :: 0 <= m < |infos| ==> infos[m].pathFile == dir
    ensures CountInfo(infos, d, name) == 0
  {
    if infos != [] {
      CountInfoElsewhere(infos[1..], dir, d, name);
    }
  }

  /** Removing ids that no row recording the file carries keeps its count. */
  lemma {:induction false} CountRemoveIds(rows: seq<FileRecord>, ids: set<int>, dir: string, name: string)
    requires forall x :: x in rows && Records(x, dir, name) ==> x.fileId !in ids
    ensures Count(RemoveIds(rows, ids), dir, name) == Count(rows, dir, name)
  {
    if rows != [] {
      assert forall x :: x in rows[1..] ==> x in rows;
      CountRemoveIds(rows[1..], ids, dir, name);
      if rows[0].fileId !in ids {
        assert RemoveIds(rows, ids) == [rows[0]] + RemoveIds(rows[1..], ids);
        assert ([rows[0]] + RemoveIds(rows[1..], ids))[1..] == RemoveIds(rows[1..], ids);
      }
    }
  }

  /** A row that records a file names that file as its backing path. */
  lemma RecordedPath(x: FileRecord, dir: string, name: string)
    requires Records(x, dir, name)
    ensures BackingPath(x) == dir + "/" + name
  {
    StemSuffixSplit(name);
  }

  /** A purge keeps every row of another directory and every row whose file exists. */
  lemma PurgeKeepsCount(t: Table, dir: string, paths: set<string>, d: string, name: string)
    requires WellFormed(t) && (d != dir || dir + "/" + name in paths)
    ensures Count(PurgeMissing(t, dir, paths).rows, d, name) == Count(t.rows, d, name)
  {
    var ids := MissingIds(ByDirectory(t.rows, dir), paths);
    ByDirectoryExact(t.rows, dir);
    MissingIdsExact(ByDirectory(t.rows, dir), paths);
    forall x | x in t.rows && Records(x, d, name) ensures x.fileId !in ids {
      RecordedPath(x, d, name);
      forall y | y in ByDirectory(t.rows, dir) && y.fileId == x.fileId ensures BackingPath(y) in paths {
        SameIdSameRow(t.rows, x, y);
      }
    }
    CountRemoveIds(t.rows, ids, d, name);
  }

  /** The file names of a listing are distinct, as those of one `os.walk` visit are. */
  predicate DistinctNames(files: seq<WalkFile>) {
    forall i, j :: 0 <= i < j < |files| ==> files[i].name != files[j].name
  }

  /** The listing names file `name`. */
  predicate Listed(files: seq<WalkFile>, name: string) {
    exists m :: 0 <= m < |files| && files[m].name == name
  }

  /** After `i` files of the insert loop started on the committed table `p`,
      exactly one row is staged for each file seen so far that `p` does not
      record, and none for any other file. */
  ghost predicate StagedOnce(p: Table, s: Staging, dir: string, files: seq<WalkFile>, i: nat) {
    && i <= |files| && InsertedFrom(p, s, dir, NameAndExtension) && Accounted(s, dir)
    && forall name :: CountInfo(s.staged, dir, name)
         == if Listed(files[..i], name) && Count(p.rows, dir, name) == 0 then 1 else 0
  }

  /** A listing grown by one file names what it named before and that file. */
  lemma ListedGrow(files: seq<WalkFile>, i: nat, name: string)
    requires i < |files|
    ensures Listed(files[..i + 1], name) <==> Listed(files[..i], name) || name == files[i].name
  {
    assert files[..i + 1] == files[..i] + [files[i]];
    if name == files[i].name {
      assert files[..i + 1][i].name == name;
    }
  }

  /** The file the loop reaches is found in the table exactly when the
      committed table `p` records it: nothing staged so far records it. */
  lemma LookupSeesCommitted(p: Table, s: Staging, dir: string, files: seq<WalkFile>, i: nat)
    requires i < |files| && DistinctNames(files) && StagedOnce(p, s, dir, files, i)
    ensures Count(s.table.rows, dir, files[i].name) == Count(p.rows, dir, files[i].name)
  {
    var f := files[i];
    assert !Listed(files[..i], f.name);
    CountBulkSave(p, Concat(s.flushes), dir, f.name);
    CountInfoAppend(Concat(s.flushes), s.batch, dir, f.name);
  }

  /** A name is determined by its stem and its suffix. */
  lemma SameStemAndSuffix(a: string, b: string)
    ensures Stem(a) == Stem(b) && Suffix(a) == Suffix(b) <==> a == b
  {
    StemSuffixSplit(a);
    StemSuffixSplit(b);
  }

  /** Staging the candidate of file `f` adds one to the count of `f` and of no other file. */
  lemma StageOne(staged: seq<FileInfo>, dir: string, f: WalkFile, name: string)
    ensures CountInfo(staged + [Candidate(dir, f)], dir, name)
      == CountInfo(staged, dir, name) + if name == f.name then 1 else 0
  {
    var c := Candidate(dir, f);
    SameStemAndSuffix(name, f.name);
    assert InfoRecords(c, dir, name) <==> name == f.name;
    CountInfoAppend(staged, [c], dir, name);
    assert [c][1..] == [];
  }

  lemma StagedOnceStep(p: Table, s: Staging, dir: string, files: seq<WalkFile>, i: nat)
    requires i < |files| && DistinctNames(files) && StagedOnce(p, s, dir, files, i)
    ensures StagedOnce(p, StepFile(s, dir, files, i, NameAndExtension), dir, files, i + 1)
  {
    var s' := StepFile(s, dir, files, i, NameAndExtension);
    InsertStep(p, s, dir, files, i, NameAndExtension);
    AccountedStep(s, dir, files, i, NameAndExtension);
    var f := files[i];
    var c := Candidate(dir, f);
    LookupSeesCommitted(p, s, dir, files, i);
    CountZero(s.table.rows, dir, f.name);
    var isNew := Count(p.rows, dir, f.name) == 0;
    assert s'.staged == if isNew then s.staged + [c] else s.staged;
    assert !Listed(files[..i], f.name);
    forall name ensures CountInfo(s'.staged, dir, name)
      == if Listed(files[..i + 1], name) && Count(p.rows, dir, name) == 0 then 1 else 0
    {
      ListedGrow(files, i, name);
      if isNew {
        StageOne(s.staged, dir, f, name);
      }
    }
  }

  /** One directory of the add pass gives each of its files without a row
      exactly one row, adds no row for a file that already has one, and
      leaves the count of every existing file of every directory unchanged
      otherwise. */
  lemma AddListingCounts(t: Table, l: Listing, paths: set<string>, d: string, name: string)
    requires WellFormed(t) && DistinctNames(l.files) && (d != l.dir || l.dir + "/" + name in paths)
    ensures Count(AddListing(t, l, paths).rows, d, name)
      == Count(t.rows, d, name) + if d == l.dir && Listed(l.files, name) && Count(t.rows, d, name) == 0 then 1 else 0
  {
    var p := PurgeMissing(t, l.dir, paths);
    var files := l.files;
    PurgeKeepsCount(t, l.dir, paths, d, name);
    assert Concat([]) == [] && BulkSave(p, []).rows == p.rows + [];
    forall s: Staging, i: nat | i < |files| && StagedOnce(p, s, l.dir, files, i)
      ensures StagedOnce(p, StepFile(s, l.dir, files, i, NameAndExtension), l.dir, files, i + 1)
    {
      StagedOnceStep(p, s, l.dir, files, i);
    }
    RunFilesKeeps((s: Staging, i: nat) => StagedOnce(p, s, l.dir, files, i), Start(p), l.dir, files, |files|, NameAndExtension);
    var s := RunFiles(Start(p), l.dir, files, |files|, NameAndExtension);
    if files != [] {
      DirectoryDrains(Start(p), l.dir, files, NameAndExtension);
    }
    assert Concat(s.flushes) == s.staged;
    assert files[..|files|] == files;
    CountBulkSave(p, s.staged, d, name);
    if d != l.dir {
      CountInfoElsewhere(s.staged, l.dir, d, name);
    }
  }

  /** Some of the first `k` directories, stored as `d`, lists file `name`. */
  ghost predicate ListedUpTo(ls: seq<Listing>, k: nat, d: string, name: string) {
    exists w :: 0 <= w < k && w < |ls| && ls[w].dir == d && Listed(ls[w].files, name)
  }

  lemma AddPassWellFormed(t: Table, ls: seq<Listing>, paths: set<string>, k: nat)
    requires k <= |ls| && WellFormed(t) && Consistent(ls, paths)
    ensures WellFormed(AddPass(t, ls, paths, k))
  {
    AddPassCovers(t, ls, paths, k);
  }

  lemma DelPassWellFormed(t: Table, ls: seq<Listing>, paths: set<string>, k: nat)
    requires k <= |ls| && WellFormed(t)
    ensures WellFormed(DelPass(t, ls, paths, k))
  {
    DelPassCleans(t, ls, paths, k);
  }

  lemma ListedUpToStep(ls: seq<Listing>, k: nat, d: string, name: string)
    requires 0 < k <= |ls|
    ensures ListedUpTo(ls, k, d, name) <==> ListedUpTo(ls, k - 1, d, name) || (ls[k - 1].dir == d && Listed(ls[k - 1].files, name))
  {
    if ls[k - 1].dir == d && Listed(ls[k - 1].files, name) {
      assert 0 <= k - 1 < k && k - 1 < |ls|;
    }
  }

  /** One more directory of the add pass keeps ids unique and keeps the
      count of the file, stated in terms of the count `c0` the file had
      before the pass and of whether an earlier directory listed it. */
  lemma AddCountStep(c0: nat, r: Table, ls: seq<Listing>, paths: set<string>, i: nat, d: string, name: string)
    requires i < |ls| && Consistent(ls, paths) && DistinctNames(ls[i].files) && d + "/" + name in paths
    requires WellFormed(r) && Count(r.rows, d, name) == c0 + if ListedUpTo(ls, i, d, name) && c0 == 0 then 1 else 0
    ensures WellFormed(AddListing(r, ls[i], paths))
    ensures Count(AddListing(r, ls[i], paths).rows, d, name)
      == c0 + if ListedUpTo(ls, i + 1, d, name) && c0 == 0 then 1 else 0
  {
    AddListingCovers(r, ls[i], paths);
    AddListingCounts(r, ls[i], paths, d, name);
    ListedUpToStep(ls, i + 1, d, name);
  }

  /** After `k` directories of the add pass, an existing file that some of
      them list and that had no row has exactly one; every other existing
      file keeps its count. */
  lemma AddPassCounts(t: Table, ls: seq<Listing>, paths: set<string>, k: nat, d: string, name: string)
    requires k <= |ls| && WellFormed(t) && Consistent(ls, paths) && d + "/" + name in paths
    requires forall w :: 0 <= w < |ls| ==> DistinctNames(ls[w].files)
    ensures Count(AddPass(t, ls, paths, k).rows, d, name)
      == Count(t.rows, d, name) + if ListedUpTo(ls, k, d, name) && Count(t.rows, d, name) == 0 then 1 else 0
  {
    var c0 := Count(t.rows, d, name);
    var inv := (r: Table, i: nat) =>
      WellFormed(r) && Count(r.rows, d, name) == c0 + if ListedUpTo(ls, i, d, name) && c0 == 0 then 1 else 0;
    forall r: Table, i: nat | i < |ls| && inv(r, i) ensures inv(AddStep(paths)(r, ls[i]), i + 1) {
      AddCountStep(c0, r, ls, paths, i, d, name);
    }
    TraceKeeps(inv, t, ls, AddStep(paths), k);
  }

  /** The delete pass keeps every row whose file exists. */
  lemma {:induction false} DelPassCounts(t: Table, ls: seq<Listing>, paths: set<string>, k: nat, d: string, name: string)
    requires k <= |ls| && WellFormed(t) && d + "/" + name in paths
    ensures Count(DelPass(t, ls, paths, k).rows, d, name) == Count(t.rows, d, name)
  {
    if k > 0 {
      DelPassCounts(t, ls, paths, k - 1, d, name);
      DelPassWellFormed(t, ls, paths, k - 1);
      DelPassStep(t, ls, paths, k);
      PurgeKeepsCount(DelPass(t, ls, paths, k - 1), ls[k - 1].dir, paths, d, name);
    }
  }

  /** Reconciling gives every listed file that had no row exactly one row,
      and leaves the count of every other existing file as it was: no file
      gains a second row. */
  lemma ReconcileCounts(t: Table, ls: seq<Listing>, paths: set<string>, d: string, name: string)
    requires WellFormed(t) && Consistent(ls, paths) && d + "/" + name in paths
    requires forall w :: 0 <= w < |ls| ==> DistinctNames(ls[w].files)
    ensures Count(Reconcile(t, ls, paths).rows, d, name)
      == if ListedUpTo(ls, |ls|, d, name) && Count(t.rows, d, name) == 0 then 1 else Count(t.rows, d, name)
  {
    var a := AddPass(t, ls, paths, |ls|);
    AddPassCounts(t, ls, paths, |ls|, d, name);
    AddPassWellFormed(t, ls, paths, |ls|);
    DelPassCounts(a, ls, paths, |ls|, d, name);
  }

  /** Starting with at most one row per listed file, reconciling leaves
      exactly one row for every file of every directory. */
  lemma ReconcileRecordsOnce(t: Table, ls: seq<Listing>, paths: set<string>)
    requires WellFormed(t) && Consistent(ls, paths)
    requires forall w :: 0 <= w < |ls| ==> DistinctNames(ls[w].files)
    requires forall w, j :: 0 <= w < |ls| && 0 <= j < |ls[w].files| ==> Count(t.rows, ls[w].dir, ls[w].files[j].name) <= 1
    ensures forall w, j :: 0 <= w < |ls| && 0 <= j < |ls[w].files| ==> Count(Reconcile(t, ls, paths).rows, ls[w].dir, ls[w].files[j].name) == 1
  {
    forall w, j | 0 <= w < |ls| && 0 <= j < |ls[w].files|
      ensures Count(Reconcile(t, ls, paths).rows, ls[w].dir, ls[w].files[j].name) == 1
    {
      var name := ls[w].files[j].name;
      assert Listed(ls[w].files, name);
      assert ListedUpTo(ls, |ls|, ls[w].dir, name);
      ReconcileCounts(t, ls, paths, ls[w].dir, name);
    }
  }

  /** Every visit of the walk lists each file once. */
  predicate ListsOnce(walk: seq<Visit>) {
    forall w :: 0 <= w < |walk| ==> DistinctNames(walk[w].files)
  }

  /** `sync_local_storage_with_db` over a consistent snapshot gives a file
      without a row exactly one, and no file a second one. */
  lemma SyncCounts(t: Table, walk: seq<Visit>, paths: set<string>, d: string, name: string)
    requires WellFormed(t) && Consistent(Listings(walk), paths) && ListsOnce(walk) && d + "/" + name in paths
    ensures Count(Sync(t, walk, paths).rows, d, name)
      == if ListedUpTo(Listings(walk), |walk|, d, name) && Count(t.rows, d, name) == 0 then 1 else Count(t.rows, d, name)
  {
    ReconcileCounts(t, Listings(walk), paths, d, name);
  }

  /** Starting with at most one row per walked file, a sync leaves exactly one. */
  lemma SyncRecordsOnce(t: Table, walk: seq<Visit>, paths: set<string>)
    requires WellFormed(t) && Consistent(Listings(walk), paths) && ListsOnce(walk)
    requires forall w, j :: 0 <= w < |walk| && 0 <= j < |walk[w].files| ==> Count(t.rows, StoredDirectory(walk[w].root), walk[w].files[j].name) <= 1
    ensures forall w, j :: 0 <= w < |walk| && 0 <= j < |walk[w].files| ==> Count(Sync(t, walk, paths).rows, StoredDirectory(walk[w].root), walk[w].files[j].name) == 1
  {
    var ls := Listings(walk);
    assert forall w :: 0 <= w < |ls| ==> ls[w].dir == StoredDirectory(walk[w].root);
    ReconcileRecordsOnce(t, ls, paths);
  }
  /* Both passes query only the directories the walk visits, so a row of a
     directory the walk no longer reaches (a removed or renamed
     subdirectory) is never looked at. */

  /** One directory of the add pass keeps ids unique and keeps every row of another directory. */
  lemma AddListingKeepsOtherRows(t: Table, l: Listing, paths: set<string>, x: FileRecord)
    requires WellFormed(t) && x in t.rows && x.pathFile != l.dir
    ensures WellFormed(AddListing(t, l, paths)) && x in AddListing(t, l, paths).rows
  {
    var p := PurgeMissing(t, l.dir, paths);
    PurgeMissingExact(t, l.dir, paths);
    InsertsFromStart(p, l.dir, l.files, |l.files|, NameAndExtension);
    var s := RunFiles(Start(p), l.dir, l.files, |l.files|, NameAndExtension);
    BulkSaveKeepsWellFormed(p, Concat(s.flushes));
    BulkSaveAppends(p, Concat(s.flushes));
    PrefixMembers(p.rows, BulkSave(p, Concat(s.flushes)).rows);
  }

  /** A row stored under a directory that no listing names survives
      reconciling, whether or not its file still exists. */
  lemma ReconcileKeepsUnvisited(t: Table, ls: seq<Listing>, paths: set<string>, x: FileRecord)
    requires WellFormed(t) && x in t.rows
    requires forall w :: 0 <= w < |ls| ==> ls[w].dir != x.pathFile
    ensures x in Reconcile(t, ls, paths).rows
  {
    var inv := (r: Table, i: nat) => WellFormed(r) && x in r.rows;
    forall r: Table, i: nat | i < |ls| && inv(r, i) ensures inv(AddStep(paths)(r, ls[i]), i + 1) {
      AddListingKeepsOtherRows(r, ls[i], paths, x);
    }
    TraceKeeps(inv, t, ls, AddStep(paths), |ls|);
    forall r: Table, i: nat | i < |ls| && inv(r, i) ensures inv(DelStep(paths)(r, ls[i]), i + 1) {
      PurgeMissingExact(r, ls[i].dir, paths);
    }
    TraceKeeps(inv, AddPass(t, ls, paths, |ls|), ls, DelStep(paths), |ls|);
  }

  /** The walk form: a row whose directory is the stored form of no visited
      root stays after a sync, even when its file is gone. */
  lemma SyncKeepsUnvisited(t: Table, walk: seq<Visit>, paths: set<string>, x: FileRecord)
    requires WellFormed(t) && x in t.rows
    requires forall w :: 0 <= w < |walk| ==> StoredDirectory(walk[w].root) != x.pathFile
    ensures x in Sync(t, walk, paths).rows
  {
    ReconcileKeepsUnvisited(t, Listings(walk), paths, x);
  }
  /** The root "d" is stored as "d". */
  lemma PlainRootStored()
    ensures StoredDirectory("d") == "d"
  {
    assert "d"[1..] == "" && SplitSlash("") == [""];
    assert ['d'] + "" == "d" && [""][1..] == [];
    assert SplitSlash("d") == ["d"];
    assert ["d"][1..] == [] && Components(["d"]) == ["d"];
    assert PurePathString("d") == "d";
  }

  /** A subdirectory "d/sub" removed from disk before a sync of "d": the walk
      no longer visits it, so a row stored under it stays although its file is gone. */
  lemma RemovedSubdirectoryKept(t: Table, paths: set<string>, x: FileRecord)
    requires WellFormed(t) && x in t.rows && x.pathFile == "d/sub" && BackingPath(x) !in paths
    ensures x in Sync(t, [Visit("d", [])], paths).rows
  {
    PlainRootStored();
    assert |"d"| != |"d/sub"|;
    SyncKeepsUnvisited(t, [Visit("d", [])], paths, x);
  }



  /** When the lookup finds every file, the insert loop changes nothing. */
  lemma RunFilesIdle(t: Table, dir: string, files: seq<WalkFile>, k: nat, key: Key)
    requires k <= |files|
    requires forall j :: 0 <= j < |files| ==> FindFile(t.rows, Stem(files[j].name), Suffix(files[j].name), dir, key).Some?
    ensures RunFiles(Start(t), dir, files, k, key) == Start(t)
  {
    RunFilesKeeps((s: Staging, i: nat) => s == Start(t), Start(t), dir, files, k, key);
  }

  lemma PurgeClean(t: Table, dir: string, paths: set<string>)
    requires Clean(t.rows, dir, paths)
    ensures PurgeMissing(t, dir, paths) == t
  {
    var ids := MissingIds(ByDirectory(t.rows, dir), paths);
    MissingIdsExact(ByDirectory(t.rows, dir), paths);
    ByDirectoryExact(t.rows, dir);
    assert forall y :: y in ByDirectory(t.rows, dir) ==> BackingPath(y) in paths;
    assert forall id :: id !in ids;
    assert ids == {};
    RemoveNoIds(t.rows);
  }

  /** A directory that agrees with the store is left as it is by the add pass. */
  lemma AddListingIdle(t: Table, l: Listing, paths: set<string>)
    requires ListingInSync(t.rows, l, paths)
    ensures AddListing(t, l, paths) == t
  {
    PurgeClean(t, l.dir, paths);
    forall j | 0 <= j < |l.files| ensures FindFile(t.rows, Stem(l.files[j].name), Suffix(l.files[j].name), l.dir, NameAndExtension).Some? {
      FindFileExact(t.rows, Stem(l.files[j].name), Suffix(l.files[j].name), l.dir, NameAndExtension);
      assert CoveredBy(t.rows, l.dir, l.files[j].name, paths);
    }
    RunFilesIdle(t, l.dir, l.files, |l.files|, NameAndExtension);
  }

  lemma {:induction false} AddPassIdle(t: Table, ls: seq<Listing>, paths: set<string>, k: nat)
    requires k <= |ls| && InSync(t.rows, ls, paths)
    ensures AddPass(t, ls, paths, k) == t
  {
    if k > 0 {
      AddPassIdle(t, ls, paths, k - 1);
      AddListingIdle(t, ls[k - 1], paths);
      AddPassStep(t, ls, paths, k);
    }
  }

  lemma {:induction false} DelPassIdle(t: Table, ls: seq<Listing>, paths: set<string>, k: nat)
    requires k <= |ls| && InSync(t.rows, ls, paths)
    ensures DelPass(t, ls, paths, k) == t
  {
    if k > 0 {
      DelPassIdle(t, ls, paths, k - 1);
      PurgeClean(t, ls[k - 1].dir, paths);
      DelPassStep(t, ls, paths, k);
    }
  }

  /** On a store that already agrees with the walk, reconciling inserts
      nothing and deletes nothing. */
  lemma ReconcileNoChange(t: Table, ls: seq<Listing>, paths: set<string>)
    requires InSync(t.rows, ls, paths)
    ensures Reconcile(t, ls, paths) == t
  {
    AddPassIdle(t, ls, paths, |ls|);
    DelPassIdle(t, ls, paths, |ls|);
  }

  /** Running the sync a second time on an unchanged tree is a no-op. */
  lemma SyncIdempotent(t: Table, walk: seq<Visit>, paths: set<string>)
    requires WellFormed(t) && Consistent(Listings(walk), paths)
    ensures Sync(Sync(t, walk, paths), walk, paths) == Sync(t, walk, paths)
  {
    var ls := Listings(walk);
    ReconcileEstablishes(t, ls, paths);
    ReconcileNoChange(Reconcile(t, ls, paths), ls, paths);
  }

  /* The two passes as the source writes them. The model above, and the class
     below, query each directory by its stored form, commit the add pass's
     deletions before its lookups, and look files up by name, extension and
     directory; the functions here do none of that, and the lemmas after
     them show what it costs. */

  /** The session between statements: the table and the deletions marked but
      not yet committed. */
  datatype Marked = Marked(table: Table, pending: set<int>)

  /** One directory of `_add_files` as written: the deletion query compares
      stored directories with the raw root (backslashes replaced), the
      marked deletions stay uncommitted, so the lookups that follow still
      see those rows, and the lookups match name and directory only. */
  function AddVisitAsWritten(m: Marked, v: Visit, paths: set<string>): Marked {
    var marks := MissingIds(ByDirectory(m.table.rows, Normalize(v.root)), paths);
    var s := RunFiles(Staging(m.table, m.pending + marks, [], [], []), StoredDirectory(v.root), v.files, |v.files|, NameOnly);
    Marked(s.table, s.pending)
  }

  function AddPassAsWritten(m: Marked, walk: seq<Visit>, paths: set<string>, k: nat): Marked
    requires k <= |walk|
  {
    if k == 0 then m else AddVisitAsWritten(AddPassAsWritten(m, walk, paths, k - 1), walk[k - 1], paths)
  }

  /** One directory of `_del_files_from_db` as written: the same raw-root
      query; the first deletion's commit also applies every deletion the add
      pass left pending. */
  function DelVisitAsWritten(m: Marked, v: Visit, paths: set<string>): Marked {
    var missing := MissingIds(ByDirectory(m.table.rows, Normalize(v.root)), paths);
    if missing == {} then m else Marked(CommitDeletes(m.table, m.pending + missing), {})
  }

  function DelPassAsWritten(m: Marked, walk: seq<Visit>, paths: set<string>, k: nat): Marked
    requires k <= |walk|
  {
    if k == 0 then m else DelVisitAsWritten(DelPassAsWritten(m, walk, paths, k - 1), walk[k - 1], paths)
  }

  /** The committed table after `sync_local_storage_with_db` as written;
      deletions still pending when the session is dropped are rolled back. */
  function SyncAsWritten(t: Table, walk: seq<Visit>, paths: set<string>): Table {
    var added := AddPassAsWritten(Marked(t, {}), walk, paths, |walk|);
    DelPassAsWritten(added, walk, paths, |walk|).table
  }

  /** When a directory's stored form differs from its raw spelling, the
      queries as written find none of its rows: a row whose file is gone
      survives the sync as written, while the corrected sync removes it. */
  lemma {:induction false} RawRootKeepsStaleRow(t: Table, root: string, paths: set<string>, x: FileRecord)
    requires WellFormed(t)
    requires x in t.rows && x.pathFile == StoredDirectory(root) && BackingPath(x) !in paths
    requires forall y :: y in t.rows ==> y.pathFile != Normalize(root)
    ensures SyncAsWritten(t, [Visit(root, [])], paths) == t
    ensures !InSync(t.rows, Listings([Visit(root, [])]), paths)
    ensures x !in Sync(t, [Visit(root, [])], paths).rows
  {
    var walk := [Visit(root, [])];
    var data := ByDirectory(t.rows, Normalize(root));
    ByDirectoryNone(t.rows, Normalize(root));
    assert MissingIds(data, paths) == {};
    var m := Marked(t, {});
    assert AddVisitAsWritten(m, walk[0], paths) == Marked(t, {} + {});
    assert AddPassAsWritten(m, walk, paths, 1) == m;
    assert DelPassAsWritten(m, walk, paths, 1) == m;
    var ls := Listings(walk);
    assert !Clean(t.rows, ls[0].dir, paths);
    assert Consistent(ls, paths);
    SyncEstablishes(t, walk, paths);
    assert Clean(Sync(t, walk, paths).rows, ls[0].dir, paths);
  }

  lemma SplitDotRoot()
    ensures SplitSlash("./d") == [".", "d"]
  {
    assert "./d"[1..] == "/d" && "/d"[1..] == "d" && "d"[1..] == "";
    assert SplitSlash("") == [""];
    assert ['d'] + "" == "d" && [""][1..] == [];
    assert SplitSlash("d") == ["d"];
    assert SplitSlash("/d") == [""] + SplitSlash("d");
    assert ['.'] + "" == "." && ["", "d"][1..] == ["d"];
  }

  lemma PurePathDotRoot()
    ensures PurePathString("./d") == "d"
  {
    SplitDotRoot();
    assert Components([".", "d"]) == ["d"];
  }

  /** The root "./d" is one such spelling: its files are stored under "d". */
  lemma DotRootStoredDifferently()
    ensures StoredDirectory("./d") == "d" && Normalize("./d") == "./d"
  {
    PurePathDotRoot();
    assert "./d"[1..] == "/d" && "/d"[1..] == "d" && "d"[1..] == "";
  }

  /** The add pass as written over one file whose stem some row of its
      directory carries: nothing is staged and the table is untouched. */
  lemma StaleLookupStagesNothing(t: Table, root: string, f: WalkFile, paths: set<string>, x: FileRecord)
    requires x in t.rows && x.pathFile == StoredDirectory(root) && x.name == Stem(f.name)
    ensures AddPassAsWritten(Marked(t, {}), [Visit(root, [f])], paths, 1).table == t
  {
    var dir := StoredDirectory(root);
    var marks := MissingIds(ByDirectory(t.rows, Normalize(root)), paths);
    FindFileExact(t.rows, Stem(f.name), Suffix(f.name), dir, NameOnly);
    var s0 := Staging(t, {} + marks, [], [], []);
    assert !ShouldFlush(0, 0, 1);
    assert StepFile(s0, dir, [f], 0, NameOnly).table == t;
    RunFilesStep(s0, dir, [f], 1, NameOnly);
  }

  /** The delete pass as written only ever removes rows. */
  lemma DelPassAsWrittenShrinks(m: Marked, walk: seq<Visit>, paths: set<string>, k: nat)
    requires k <= |walk|
    ensures forall y :: y in DelPassAsWritten(m, walk, paths, k).table.rows ==> y in m.table.rows
  {
    if k > 0 {
      var prev := DelPassAsWritten(m, walk, paths, k - 1);
      DelPassAsWrittenShrinks(m, walk, paths, k - 1);
      RemoveIdsExact(prev.table.rows, prev.pending + MissingIds(ByDirectory(prev.table.rows, Normalize(walk[k - 1].root)), paths));
    }
  }

  /** The lookup as written hides a file behind any other row of its
      directory with its stem: when no row records the file itself, the
      add pass as written stages nothing for it and the delete pass only
      removes rows, so the sync as written leaves the file without a row
      although the walk agrees with the file system; the corrected sync
      records it. */
  lemma {:induction false} StemLookupHidesFile(t: Table, root: string, f: WalkFile, paths: set<string>, x: FileRecord)
    requires WellFormed(t)
    requires StoredDirectory(root) + "/" + f.name in paths
    requires x in t.rows && x.pathFile == StoredDirectory(root) && x.name == Stem(f.name)
    requires forall y :: y in t.rows && y.pathFile == StoredDirectory(root) && y.name == Stem(f.name) ==>
      y.extension != Suffix(f.name) || BackingPath(y) !in paths
    ensures Consistent(Listings([Visit(root, [f])]), paths)
    ensures !InSync(SyncAsWritten(t, [Visit(root, [f])], paths).rows, Listings([Visit(root, [f])]), paths)
    ensures InSync(Sync(t, [Visit(root, [f])], paths).rows, Listings([Visit(root, [f])]), paths)
  {
    var dir := StoredDirectory(root);
    var walk := [Visit(root, [f])];
    var ls := Listings(walk);
    assert ls[0] == Listing(dir, [f]);
    assert Consistent(ls, paths);
    SyncEstablishes(t, walk, paths);

    var added := AddPassAsWritten(Marked(t, {}), walk, paths, 1);
    StaleLookupStagesNothing(t, root, f, paths, x);
    DelPassAsWrittenShrinks(added, walk, paths, 1);
    var r := SyncAsWritten(t, walk, paths).rows;
    assert !CoveredBy(r, dir, f.name, paths);
    assert !ListingInSync(r, ls[0], paths);
  }

  /** The row of a deleted "x.txt" beside a new "x.md": the add pass as
      written still sees the row it has merely marked, so "x.md" gets no
      row, while the delete pass may remove the old one. */
  lemma UncommittedDeleteHidesFile(t: Table, root: string, f: WalkFile, paths: set<string>, x: FileRecord)
    requires WellFormed(t)
    requires StoredDirectory(root) + "/" + f.name in paths
    requires x in t.rows && x.pathFile == StoredDirectory(root) && x.name == Stem(f.name)
    requires forall y :: y in t.rows && y.pathFile == StoredDirectory(root) && y.name == Stem(f.name) ==> BackingPath(y) !in paths
    ensures !InSync(SyncAsWritten(t, [Visit(root, [f])], paths).rows, Listings([Visit(root, [f])]), paths)
    ensures InSync(Sync(t, [Visit(root, [f])], paths).rows, Listings([Visit(root, [f])]), paths)
  {
    StemLookupHidesFile(t, root, f, paths, x);
  }

  /** A live "x.txt" beside a new "x.md": the lookup as written takes the
      row of "x.txt" for "x.md", so "x.md" never gets a row of its own,
      however often the sync runs. */
  lemma OtherExtensionHidesFile(t: Table, root: string, f: WalkFile, paths: set<string>, x: FileRecord)
    requires WellFormed(t)
    requires StoredDirectory(root) + "/" + f.name in paths
    requires x in t.rows && x.pathFile == StoredDirectory(root) && x.name == Stem(f.name) && BackingPath(x) in paths
    requires forall y :: y in t.rows && y.pathFile == StoredDirectory(root) ==> y.name != Stem(f.name) || y.extension != Suffix(f.name)
    ensures !InSync(SyncAsWritten(t, [Visit(root, [f])], paths).rows, Listings([Visit(root, [f])]), paths)
    ensures InSync(Sync(t, [Visit(root, [f])], paths).rows, Listings([Visit(root, [f])]), paths)
  {
    StemLookupHidesFile(t, root, f, paths, x);
  }

  /** The listing of each visit: its stored directory and its files. */
  ghost predicate ListsWalk(ls: seq<Listing>, walk: seq<Visit>) {
    |ls| == |walk| && forall j :: 0 <= j < |ls| ==> ls[j] == Listing(StoredDirectory(walk[j].root), walk[j].files)
  }

  lemma ListingsListWalk(walk: seq<Visit>)
    ensures ListsWalk(Listings(walk), walk)
  {
  }

  /** `SyncFileWithDb`: the reconciler and the session it holds. */
  class SyncFileWithDb {
    var db: Session

    /** A fresh session with nothing marked for deletion. */
    ghost predicate Valid()
      reads this, db
    {
      db.Valid() && db.pending == {}
    }

    /** `__init__`: opens a session on the database, whose table is `t`. */
    constructor (t: Table)
      requires WellFormed(t)
      ensures Valid() && fresh(db) && db.Snapshot() == t
    {
      db := new Session(t);
    }

    /** A reconciler working in a session its caller already holds, as the
        views that extend it do. */
    constructor Attach(db: Session)
      requires db.Valid() && db.pending == {}
      ensures Valid() && this.db == db
    {
      this.db := db;
    }

    /** The deletion block of both passes: every row stored under `dir` whose
        file does not exist is marked for deletion; nothing is removed yet. */
    method MarkMissing(dir: string, paths: set<string>)
      requires Valid()
      modifies db
      ensures db.Valid() && db.Snapshot() == old(db.Snapshot())
      ensures db.pending == MissingIds(ByDirectory(db.rows, dir), paths)
    {
      var data := ByDirectory(db.rows, dir);
      var j := 0;
      while j < |data|
        invariant 0 <= j <= |data|
        invariant db.Valid() && db.Snapshot() == old(db.Snapshot())
        invariant db.pending == MissingIds(data[..j], paths)
      {
        assert data[..j + 1][..j] == data[..j];
        if BackingPath(data[j]) !in paths {
          db.Delete(data[j].fileId);
        }
        j := j + 1;
      }
      assert data[..j] == data;
    }

    /** The deletion block of `_add_files` for one directory, committed
        before the lookups of the insert loop run. */
    method PurgeDirectory(dir: string, paths: set<string>)
      requires Valid()
      modifies db
      ensures Valid()
      ensures db.Snapshot() == PurgeMissing(old(db.Snapshot()), dir, paths)
    {
      MarkMissing(dir, paths);
      db.Commit();
    }

    /** One iteration of the insert loop of `_add_files`, for file `i`: the
        lookup, the staging and the flush rule, from the loop state `s`. */
    method StageFile(ghost s: Staging, dir: string, files: seq<WalkFile>, i: nat, filesToInsert: seq<FileInfo>)
      returns (batch: seq<FileInfo>)
      requires i < |files| && db.Valid()
      requires db.Snapshot() == s.table && db.pending == s.pending && filesToInsert == s.batch
      modifies db
      ensures db.Valid() && batch == StepFile(s, dir, files, i, NameAndExtension).batch
      ensures db.Snapshot() == StepFile(s, dir, files, i, NameAndExtension).table
      ensures db.pending == StepFile(s, dir, files, i, NameAndExtension).pending
    {
      var name := Stem(files[i].name);
      var extension := Suffix(files[i].name);
      batch := filesToInsert;
      if FindFile(db.rows, name, extension, dir, NameAndExtension).None? {
        batch := batch + [FileInfo(name, extension, dir, files[i].size)];
      }
      if ShouldFlush(|batch|, i, |files|) {
        db.BulkSaveObjects(batch);
        db.Commit();
        batch := [];
      }
    }

    /** The insert loop of `_add_files` for one directory: a row is staged
        for every file whose name and extension are not yet stored under
        `dir`, and the staging list is flushed by the batch rule. */
    method InsertFiles(dir: string, files: seq<WalkFile>)
      requires Valid()
      modifies db
      ensures Valid()
      ensures db.Snapshot() == RunFiles(Start(old(db.Snapshot())), dir, files, |files|, NameAndExtension).table
    {
      ghost var start := Start(db.Snapshot());
      var filesToInsert: seq<FileInfo> := [];
      var i := 0;
      while i < |files|
        invariant 0 <= i <= |files|
        invariant db.Valid()
        invariant db.Snapshot() == RunFiles(start, dir, files, i, NameAndExtension).table
        invariant db.pending == RunFiles(start, dir, files, i, NameAndExtension).pending
        invariant filesToInsert == RunFiles(start, dir, files, i, NameAndExtension).batch
      {
        RunFilesStep(start, dir, files, i + 1, NameAndExtension);
        filesToInsert := StageFile(RunFiles(start, dir, files, i, NameAndExtension), dir, files, i, filesToInsert);
        i := i + 1;
      }
      InsertsFromStart(old(db.Snapshot()), dir, files, |files|, NameAndExtension);
    }

    /** One directory of `_add_files`: the rows of `root` whose file is gone
        are deleted, then the insert loop runs. The source keeps the staging
        list across directories, but the last file of each non-empty
        directory drains it, so every directory starts with it empty and it
        is local to `InsertFiles`. */
    method AddDirectory(root: string, files: seq<WalkFile>, paths: set<string>)
      requires Valid()
      modifies db
      ensures Valid()
      ensures db.Snapshot() == AddListing(old(db.Snapshot()), Listing(StoredDirectory(root), files), paths)
    {
      var dir := StoredDirectory(root);
      PurgeDirectory(dir, paths);
      InsertFiles(dir, files);
    }

    /** `_add_files`: every directory of the walk of `directory` in turn. */
    method AddFiles(directory: string, walk: seq<Visit>, paths: set<string>)
      requires Valid() && WalksFrom(directory, walk)
      modifies db
      ensures Valid()
      ensures db.Snapshot() == AddPass(old(db.Snapshot()), Listings(walk), paths, |walk|)
    {
      ghost var ls := Listings(walk);
      ListingsListWalk(walk);
      var v := 0;
      while v < |walk|
        invariant 0 <= v <= |walk|
        invariant Valid() && db.Snapshot() == AddPass(old(db.Snapshot()), ls, paths, v)
      {
        AddDirectory(walk[v].root, walk[v].files, paths);
        AddPassStep(old(db.Snapshot()), ls, paths, v + 1);
        v := v + 1;
      }
    }

    /** The deletion loop of `_del_files_from_db` for one directory: each
        row stored under `dir` whose file is gone is deleted and committed
        at once. */
    method DeleteMissing(dir: string, paths: set<string>)
      requires Valid()
      modifies db
      ensures Valid()
      ensures db.Snapshot() == PurgeMissing(old(db.Snapshot()), dir, paths)
    {
      var data := ByDirectory(db.rows, dir);
      ghost var before := db.Snapshot();
      RemoveNoIds(before.rows);
      var j := 0;
      while j < |data|
        invariant 0 <= j <= |data|
        invariant Valid()
        invariant db.Snapshot() == CommitDeletes(before, MissingIds(data[..j], paths))
      {
        ghost var done := MissingIds(data[..j], paths);
        assert data[..j + 1][..j] == data[..j];
        assert MissingIds(data[..j + 1], paths)
          == done + (if BackingPath(data[j]) !in paths then {data[j].fileId} else {});
        if BackingPath(data[j]) !in paths {
          RemoveIdsTwice(before.rows, done, {data[j].fileId});
          ghost var mid := db.Snapshot();
          db.Delete(data[j].fileId);
          assert db.pending == {data[j].fileId};
          db.Commit();
          assert db.Snapshot() == CommitDeletes(mid, {data[j].fileId});
          assert db.Snapshot().rows == RemoveIds(before.rows, done + {data[j].fileId});
        } else {
          assert done + {} == done;
        }
        j := j + 1;
      }
      assert data[..j] == data;
    }

    /** `_del_files_from_db`: the deletion loop over every directory of the
        walk of `directory`. */
    method DelFilesFromDb(directory: string, walk: seq<Visit>, paths: set<string>)
      requires Valid() && WalksFrom(directory, walk)
      modifies db
      ensures Valid()
      ensures db.Snapshot() == DelPass(old(db.Snapshot()), Listings(walk), paths, |walk|)
    {
      ghost var ls := Listings(walk);
      ListingsListWalk(walk);
      var v := 0;
      while v < |walk|
        invariant 0 <= v <= |walk|
        invariant Valid() && db.Snapshot() == DelPass(old(db.Snapshot()), ls, paths, v)
      {
        DeleteMissing(StoredDirectory(walk[v].root), paths);
        DelPassStep(old(db.Snapshot()), ls, paths, v + 1);
        v := v + 1;
      }
    }

    /** `sync_local_storage_with_db`: the add pass, then the delete pass. On
        a walk that agrees with the file system the store then agrees with
        the walk. */
    method SyncLocalStorageWithDb(directory: string, walk: seq<Visit>, paths: set<string>)
      requires Valid() && WalksFrom(directory, walk)
      modifies db
      ensures Valid()
      ensures db.Snapshot() == Sync(old(db.Snapshot()), walk, paths)
      ensures Consistent(Listings(walk), paths) ==> InSync(db.rows, Listings(walk), paths)
      ensures Consistent(Listings(walk), paths) && ListsOnce(walk) ==>
        forall d, name :: d + "/" + name in paths ==>
          Count(db.rows, d, name) == if ListedUpTo(Listings(walk), |walk|, d, name) && Count(old(db.rows), d, name) == 0
                                     then 1 else Count(old(db.rows), d, name)
    {
      ghost var t := db.Snapshot();
      AddFiles(directory, walk, paths);
      DelFilesFromDb(directory, walk, paths);
      if Consistent(Listings(walk), paths) {
        SyncEstablishes(t, walk, paths);
        if ListsOnce(walk) {
          forall d, name | d + "/" + name in paths
            ensures Count(db.rows, d, name) == if ListedUpTo(Listings(walk), |walk|, d, name) && Count(t.rows, d, name) == 0
                                               then 1 else Count(t.rows, d, name)
          {
            SyncCounts(t, walk, paths, d, name);
          }
        }
      }
    }
  }
}
