/** The `new_file_info` table and the session the source talks to it
    through. The table is a sequence of rows in insertion order; the session
    is opened with `autoflush=False`, so a `delete` only marks a row and the
    row stays visible to queries until the next `commit`. */
module Store {
  import opened Models

  /** The table's rows and the next id its autoincrement column hands out. */
  datatype Table = Table(rows: seq<FileRecord>, nextId: int)

  predicate IdsDistinct(rows: seq<FileRecord>) {
    forall i, j :: 0 <= i < j < |rows| ==> rows[i].fileId != rows[j].fileId
  }

  /** Ids are a primary key, and every one of them has already been handed out. */
  predicate WellFormed(t: Table) {
    IdsDistinct(t.rows) && forall i :: 0 <= i < |t.rows| ==> t.rows[i].fileId < t.nextId
  }

  /** `query(NewFileInfo).filter(NewFileInfo.path_file == dir).all()`. */
  function ByDirectory(rows: seq<FileRecord>, dir: string): (r: seq<FileRecord>)
    ensures |r| <= |rows|
  {
    if rows == [] then []
    else if rows[0].pathFile == dir then [rows[0]] + ByDirectory(rows[1..], dir)
    else ByDirectory(rows[1..], dir)
  }

  /** The query returns exactly the rows stored under `dir`. */
  lemma {:induction false} ByDirectoryExact(rows: seq<FileRecord>, dir: string)
    ensures forall x :: x in ByDirectory(rows, dir) <==> x in rows && x.pathFile == dir
  {
    if rows != [] {
      ByDirectoryExact(rows[1..], dir);
      assert forall x :: x in rows <==> x == rows[0] || x in rows[1..];
    }
  }

  /** A directory no row is stored under yields an empty result. */
  lemma {:induction false} ByDirectoryNone(rows: seq<FileRecord>, dir: string)
    requires forall x :: x in rows ==> x.pathFile != dir
    ensures ByDirectory(rows, dir) == []
  {
    if rows != [] {
      assert rows[0] in rows;
      ByDirectoryNone(rows[1..], dir);
    }
  }

  /** The columns the file lookup filters on besides the directory: the
      name (the stem) alone, or the name and the extension. */
  datatype Key = NameOnly | NameAndExtension

  /** `query(NewFileInfo).filter(name == name, path_file == dir).first()`,
      with `extension == extension` among the filters under `NameAndExtension`. */
  function FindFile(rows: seq<FileRecord>, name: string, extension: string, dir: string, key: Key): Option<FileRecord> {
    if rows == [] then None
    else if rows[0].name == name && rows[0].pathFile == dir && (key == NameOnly || rows[0].extension == extension) then Some(rows[0])
    else FindFile(rows[1..], name, extension, dir, key)
  }

  /** The lookup finds nothing exactly when no row passes its filters, and
      what it finds passes them. */
  lemma {:induction false} FindFileExact(rows: seq<FileRecord>, name: string, extension: string, dir: string, key: Key)
    ensures var r := FindFile(rows, name, extension, dir, key);
      && (r.None? <==> forall x :: x in rows ==> !(x.name == name && x.pathFile == dir && (key == NameOnly || x.extension == extension)))
      && (r.Some? ==> r.value in rows && r.value.name == name && r.value.pathFile == dir && (key == NameOnly || r.value.extension == extension))
  {
    if rows != [] {
      FindFileExact(rows[1..], name, extension, dir, key);
      assert forall x :: x in rows <==> x == rows[0] || x in rows[1..];
    }
  }

  /** Position of `query(NewFileInfo).filter(file_id == id).first()`. */
  function FindById(rows: seq<FileRecord>, id: int): (r: Option<nat>)
    ensures r.None? <==> forall k :: 0 <= k < |rows| ==> rows[k].fileId != id
    ensures r.Some? ==> r.value < |rows| && rows[r.value].fileId == id
    ensures r.Some? ==> forall k :: 0 <= k < r.value ==> rows[k].fileId != id
  {
    if rows == [] then None
    else if rows[0].fileId == id then Some(0)
    else
      var rest := FindById(rows[1..], id);
      if rest.None? then None else Some(rest.value + 1)
  }

  /** The rows left once every row whose id is in `ids` is deleted. */
  function RemoveIds(rows: seq<FileRecord>, ids: set<int>): (r: seq<FileRecord>)
    ensures |r| <= |rows|
  {
    if rows == [] then []
    else if rows[0].fileId in ids then RemoveIds(rows[1..], ids)
    else [rows[0]] + RemoveIds(rows[1..], ids)
  }

  /** Exactly the rows whose id is not in `ids` survive. */
  lemma {:induction false} RemoveIdsExact(rows: seq<FileRecord>, ids: set<int>)
    ensures forall x :: x in RemoveIds(rows, ids) <==> x in rows && x.fileId !in ids
  {
    if rows != [] {
      RemoveIdsExact(rows[1..], ids);
      assert forall x :: x in rows <==> x == rows[0] || x in rows[1..];
    }
  }

  lemma {:induction false} RemoveNoIds(rows: seq<FileRecord>)
    ensures RemoveIds(rows, {}) == rows
  {
    if rows != [] {
      RemoveNoIds(rows[1..]);
    }
  }

  /** Deleting in two rounds removes what one round with both id sets does. */
  lemma {:induction false} RemoveIdsTwice(rows: seq<FileRecord>, a: set<int>, b: set<int>)
    ensures RemoveIds(RemoveIds(rows, a), b) == RemoveIds(rows, a + b)
  {
    if rows != [] {
      RemoveIdsTwice(rows[1..], a, b);
    }
  }

  lemma {:induction false} RemoveIdsKeepsIdsDistinct(rows: seq<FileRecord>, ids: set<int>)
    requires IdsDistinct(rows)
    ensures IdsDistinct(RemoveIds(rows, ids))
  {
    if rows != [] {
      RemoveIdsKeepsIdsDistinct(rows[1..], ids);
      RemoveIdsExact(rows[1..], ids);
      var rest := RemoveIds(rows[1..], ids);
      if rows[0].fileId !in ids {
        forall j | 0 <= j < |rest| ensures rows[0].fileId != rest[j].fileId {
          assert rest[j] in rows[1..];
        }
      }
    }
  }

  /** With ids unique, deleting one id removes exactly the row at its position. */
  lemma {:induction false} RemoveOneId(rows: seq<FileRecord>, k: nat)
    requires IdsDistinct(rows) && k < |rows|
    ensures RemoveIds(rows, {rows[k].fileId}) == rows[..k] + rows[k + 1..]
  {
    var id := rows[k].fileId;
    if k == 0 {
      assert forall x :: x in rows[1..] ==> x.fileId != id;
      RemoveNoMatch(rows[1..], {id});
    } else {
      RemoveOneId(rows[1..], k - 1);
      assert rows[1..][k - 1] == rows[k];
      assert rows[..k] + rows[k + 1..] == [rows[0]] + (rows[1..][..k - 1] + rows[1..][k..]);
    }
  }

  lemma {:induction false} RemoveNoMatch(rows: seq<FileRecord>, ids: set<int>)
    requires forall x :: x in rows ==> x.fileId !in ids
    ensures RemoveIds(rows, ids) == rows
  {
    if rows != [] {
      RemoveNoMatch(rows[1..], ids);
    }
  }

  /** The rows a batch becomes: consecutive ids from `id`, in batch order. */
  function Persisted(batch: seq<FileInfo>, id: int): (r: seq<FileRecord>)
    ensures |r| == |batch|
  {
    if batch == [] then [] else [Persist(batch[0], id)] + Persisted(batch[1..], id + 1)
  }

  lemma {:induction false} PersistedExact(batch: seq<FileInfo>, id: int)
    ensures forall k :: 0 <= k < |batch| ==> Persisted(batch, id)[k] == Persist(batch[k], id + k)
  {
    if batch != [] {
      PersistedExact(batch[1..], id + 1);
      var r := Persisted(batch, id);
      forall k | 0 <= k < |batch| ensures r[k] == Persist(batch[k], id + k) {
        if k > 0 {
          assert r[k] == Persisted(batch[1..], id + 1)[k - 1];
        }
      }
    }
  }

  /** `bulk_save_objects(batch)`. */
  function BulkSave(t: Table, batch: seq<FileInfo>): Table {
    Table(t.rows + Persisted(batch, t.nextId), t.nextId + |batch|)
  }

  /** Saving appends the batch, in order, under the next ids; the rows
      already there are untouched. */
  lemma BulkSaveAppends(t: Table, batch: seq<FileInfo>)
    ensures var r := BulkSave(t, batch);
      && |r.rows| == |t.rows| + |batch| && r.rows[..|t.rows|] == t.rows
      && (forall i :: 0 <= i < |t.rows| ==> r.rows[i] == t.rows[i])
      && (forall i :: |t.rows| <= i < |r.rows| ==>
            r.rows[i] == Persist(batch[i - |t.rows|], t.nextId + (i - |t.rows|)))
      && r.nextId == t.nextId + |batch|
  {
    PersistedExact(batch, t.nextId);
    var r := BulkSave(t, batch);
    assert r.rows[..|t.rows|] == t.rows;
    forall i | |t.rows| <= i < |r.rows|
      ensures r.rows[i] == Persist(batch[i - |t.rows|], t.nextId + (i - |t.rows|))
    {
      assert r.rows[i] == Persisted(batch, t.nextId)[i - |t.rows|];
    }
  }

  /** Saving keeps ids unique: the new ones are all above the old ones. */
  lemma BulkSaveKeepsWellFormed(t: Table, batch: seq<FileInfo>)
    requires WellFormed(t)
    ensures WellFormed(BulkSave(t, batch))
  {
    var r := BulkSave(t, batch);
    BulkSaveAppends(t, batch);
    forall i, j | 0 <= i < j < |r.rows| ensures r.rows[i].fileId != r.rows[j].fileId {
      if j >= |t.rows| {
        assert r.rows[j].fileId == t.nextId + (j - |t.rows|);
        if i < |t.rows| {
          assert r.rows[i] == t.rows[i];
        } else {
          assert r.rows[i].fileId == t.nextId + (i - |t.rows|);
        }
      } else {
        assert r.rows[i] == t.rows[i] && r.rows[j] == t.rows[j];
      }
    }
    forall i | 0 <= i < |r.rows| ensures r.rows[i].fileId < r.nextId {
      if i < |t.rows| {
        assert r.rows[i] == t.rows[i];
      }
    }
  }

  /** Two saves in a row are one save of both batches. */
  lemma BulkSaveTwice(t: Table, a: seq<FileInfo>, b: seq<FileInfo>)
    ensures BulkSave(BulkSave(t, a), b) == BulkSave(t, a + b)
  {
    var l := BulkSave(BulkSave(t, a), b).rows;
    var r := BulkSave(t, a + b).rows;
    BulkSaveAppends(t, a);
    BulkSaveAppends(BulkSave(t, a), b);
    BulkSaveAppends(t, a + b);
    assert |l| == |r|;
    forall k | 0 <= k < |l| ensures l[k] == r[k] {
      if k >= |t.rows| + |a| {
        assert l[k] == Persist(b[k - |t.rows| - |a|], t.nextId + |a| + (k - |t.rows| - |a|));
        assert (a + b)[k - |t.rows|] == b[k - |t.rows| - |a|];
      } else if k >= |t.rows| {
        assert l[k] == BulkSave(t, a).rows[k];
      } else {
        assert l[k] == BulkSave(t, a).rows[k];
      }
    }
  }

  /** What `commit()` does to the table: the rows marked for deletion go. */
  function CommitDeletes(t: Table, pending: set<int>): Table {
    Table(RemoveIds(t.rows, pending), t.nextId)
  }

  /** Deleting rows keeps ids unique and below the next id. */
  lemma CommitKeepsWellFormed(t: Table, pending: set<int>)
    requires WellFormed(t)
    ensures WellFormed(CommitDeletes(t, pending))
  {
    var r := RemoveIds(t.rows, pending);
    RemoveIdsKeepsIdsDistinct(t.rows, pending);
    RemoveIdsExact(t.rows, pending);
    forall i | 0 <= i < |r| ensures r[i].fileId < t.nextId {
      assert r[i] in r;
    }
  }

  /** The ids of the rows among `data` whose backing file does not exist. */
  function MissingIds(data: seq<FileRecord>, paths: set<string>): set<int> {
    if data == [] then {}
    else
      var last := data[|data| - 1];
      MissingIds(data[..|data| - 1], paths) + (if BackingPath(last) !in paths then {last.fileId} else {})
  }

  /** An id is collected exactly when some row of `data` carries it and
      names a file that does not exist. */
  lemma {:induction false} MissingIdsExact(data: seq<FileRecord>, paths: set<string>)
    ensures forall id :: id in MissingIds(data, paths) <==>
      exists x :: x in data && x.fileId == id && BackingPath(x) !in paths
  {
    if data != [] {
      var last := data[|data| - 1];
      MissingIdsExact(data[..|data| - 1], paths);
      assert forall x :: x in data <==> x in data[..|data| - 1] || x == last;
    }
  }

  /** The SQLAlchemy session: the rows the database holds, the next id, and
      the ids `delete` has marked and the next `commit` will remove. */
  class Session {
    var rows: seq<FileRecord>
    var nextId: int
    var pending: set<int>

    ghost predicate Valid()
      reads this
    {
      WellFormed(Table(rows, nextId))
    }

    function Snapshot(): Table
      reads this
    {
      Table(rows, nextId)
    }

    constructor (t: Table)
      requires WellFormed(t)
      ensures Valid() && Snapshot() == t && pending == {}
    {
      rows, nextId, pending := t.rows, t.nextId, {};
    }

    /** `delete(obj)`: marked only; queries still return the row. */
    method Delete(id: int)
      modifies this
      ensures rows == old(rows) && nextId == old(nextId)
      ensures pending == old(pending) + {id}
    {
      pending := pending + {id};
    }

    /** `commit()`: the marked rows are deleted. */
    method Commit()
      requires Valid()
      modifies this
      ensures Valid() && pending == {}
      ensures Snapshot() == CommitDeletes(old(Snapshot()), old(pending))
    {
      CommitKeepsWellFormed(Snapshot(), pending);
      rows := RemoveIds(rows, pending);
      pending := {};
    }

    /** `bulk_save_objects(batch)`: inserted at once, ids from `nextId`. */
    method BulkSaveObjects(batch: seq<FileInfo>)
      requires Valid()
      modifies this
      ensures Valid() && pending == old(pending)
      ensures Snapshot() == BulkSave(old(Snapshot()), batch)
    {
      BulkSaveKeepsWellFormed(Snapshot(), batch);
      rows := rows + Persisted(batch, nextId);
      nextId := nextId + |batch|;
    }

    /** `add(obj)` followed by the flush of the next commit: one row, next id. */
    method Add(info: FileInfo) returns (r: FileRecord)
      requires Valid()
      modifies this
      ensures Valid() && pending == old(pending)
      ensures r == Persist(info, old(nextId))
      ensures Snapshot() == BulkSave(old(Snapshot()), [info])
    {
      BulkSaveKeepsWellFormed(Snapshot(), [info]);
      r := Persist(info, nextId);
      rows := rows + [r];
      nextId := nextId + 1;
    }

    /** Attribute assignments on the loaded row at position `k`, flushed at
        the next commit; the id is the primary key and does not change. */
    method Replace(k: nat, r: FileRecord)
      requires Valid() && k < |rows| && r.fileId == rows[k].fileId
      modifies this
      ensures Valid() && pending == old(pending) && nextId == old(nextId)
      ensures rows == old(rows)[k := r]
    {
      rows := rows[k := r];
      assert forall i :: 0 <= i < |rows| ==> rows[i].fileId == old(rows)[i].fileId;
    }
  }
}
