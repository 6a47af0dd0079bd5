/** The record operations behind the HTTP endpoints: paged and filtered
    listings, lookup by id, and the three operations that change a record
    together with the file it describes. */
module Views {
  import opened Paths
  import opened Models
  import opened Store
  import opened Integrations

  function Min(a: nat, b: nat): nat {
    if a <= b then a else b
  }

  /** `query.offset(offset).limit(limit).all()`: the rows from position
      `offset` on, at most `limit` of them, in table order. */
  function GetItems(rows: seq<FileRecord>, offset: nat, limit: nat): (r: seq<FileRecord>)
    ensures |r| <= limit
    ensures |r| == if offset >= |rows| then 0 else Min(limit, |rows| - offset)
    ensures forall k :: 0 <= k < |r| ==> offset + k < |rows| && r[k] == rows[offset + k]
  {
    if offset >= |rows| then [] else rows[offset..offset + Min(limit, |rows| - offset)]
  }

  /** Two consecutive pages read as one page of their combined size: paging
      neither skips nor repeats a row. */
  lemma PagesAdjoin(rows: seq<FileRecord>, offset: nat, a: nat, b: nat)
    ensures GetItems(rows, offset, a) + GetItems(rows, offset + a, b) == GetItems(rows, offset, a + b)
  {
    var l := GetItems(rows, offset, a) + GetItems(rows, offset + a, b);
    var r := GetItems(rows, offset, a + b);
    assert |l| == |r|;
    forall k | 0 <= k < |l| ensures l[k] == r[k] {
      if k >= |GetItems(rows, offset, a)| {
        assert l[k] == GetItems(rows, offset + a, b)[k - a];
      }
    }
  }

  /** `path_file LIKE '%name%'`: `name` occurs in `s`. */
  predicate Contains(s: string, name: string) {
    exists i :: 0 <= i <= |s| && name <= s[i..]
  }

  /** The rows whose directory contains `name`, in table order. */
  function InFolder(rows: seq<FileRecord>, name: string): (r: seq<FileRecord>)
    ensures |r| <= |rows|
  {
    if rows == [] then []
    else if Contains(rows[0].pathFile, name) then [rows[0]] + InFolder(rows[1..], name)
    else InFolder(rows[1..], name)
  }

  /** The filter keeps exactly the rows whose directory contains `name`. */
  lemma {:induction false} InFolderExact(rows: seq<FileRecord>, name: string)
    ensures forall x :: x in InFolder(rows, name) <==> x in rows && Contains(x.pathFile, name)
  {
    if rows != [] {
      InFolderExact(rows[1..], name);
      assert forall x :: x in rows <==> x == rows[0] || x in rows[1..];
    }
  }

  /** `get_items_by_folder`, and the listing `synch_files` returns. */
  function GetItemsByFolder(rows: seq<FileRecord>, name: string, offset: nat, limit: nat): seq<FileRecord> {
    GetItems(InFolder(rows, name), offset, limit)
  }

  /** A folder page holds at most `limit` stored rows, each in a directory
      whose path contains the requested name. */
  lemma GetItemsByFolderMatches(rows: seq<FileRecord>, name: string, offset: nat, limit: nat)
    ensures var r := GetItemsByFolder(rows, name, offset, limit);
      && |r| <= limit
      && forall x :: x in r ==> x in rows && Contains(x.pathFile, name)
  {
    var f := InFolder(rows, name);
    InFolderExact(rows, name);
    var r := GetItems(f, offset, limit);
    forall x | x in r ensures x in f {
      var k :| 0 <= k < |r| && r[k] == x;
      assert f[offset + k] == x;
    }
  }

  /** `get_item`: the row with the id, or not-found. */
  function GetItem(rows: seq<FileRecord>, id: int): (r: Result<FileRecord>)
    ensures r.Ok? <==> exists k :: 0 <= k < |rows| && rows[k].fileId == id
    ensures r.Ok? ==> r.value in rows && r.value.fileId == id
    ensures r.Err? ==> r.error == RecordNotFound
  {
    match FindById(rows, id)
    case None => Err(RecordNotFound)
    case Some(k) => Ok(rows[k])
  }

  /** Ids are unique, so the row `get_item` returns is the only one with
      that id. */
  lemma GetItemUnique(t: Table, id: int, x: FileRecord)
    requires WellFormed(t) && x in t.rows && x.fileId == id
    ensures GetItem(t.rows, id) == Ok(x)
  {
    SameIdSameRow(t.rows, x, GetItem(t.rows, id).value);
  }

  /** Python truthiness of an optional string: given and non-empty. */
  predicate Given(v: Option<string>) {
    v.Some? && v.value != ""
  }

  /** `update_x = current; if new_x: update_x = new_x`. */
  function Merge(current: string, v: Option<string>): string {
    if Given(v) then v.value else current
  }

  /** The stamp test as written: `update_name == new_name or
      update_path == new_path_file`, where an absent value equals no string. */
  predicate Stamps(r: FileRecord, newName: Option<string>, newPath: Option<string>) {
    || (newName.Some? && Merge(r.name, newName) == newName.value)
    || (newPath.Some? && Merge(r.pathFile, newPath) == newPath.value)
  }

  /** The row after `update_item`'s assignments, stamped with `now` when
      the stamp test holds. */
  function Updated(r: FileRecord, newName: Option<string>, newPath: Option<string>,
                   newComment: Option<string>, now: int): (u: FileRecord)
    ensures u.fileId == r.fileId && u.extension == r.extension && u.size == r.size
  {
    FileRecord(
      r.fileId,
      Merge(r.name, newName),
      r.extension,
      Merge(r.pathFile, newPath),
      r.size,
      if Stamps(r, newName, newPath) then Some(now) else r.dateChange,
      if Given(newComment) then Some(newComment.value) else r.comment)
  }

  /** Each of name, directory and comment takes the new value exactly when
      one is given non-empty, and keeps the old one otherwise. */
  lemma UpdatedFields(r: FileRecord, newName: Option<string>, newPath: Option<string>,
                      newComment: Option<string>, now: int)
    ensures var u := Updated(r, newName, newPath, newComment, now);
      && (Given(newName) ==> u.name == newName.value) && (!Given(newName) ==> u.name == r.name)
      && (Given(newPath) ==> u.pathFile == newPath.value) && (!Given(newPath) ==> u.pathFile == r.pathFile)
      && (Given(newComment) ==> u.comment == newComment) && (!Given(newComment) ==> u.comment == r.comment)
  {
  }

  /** What the stamp test amounts to: a non-empty new name or directory
      stamps; so does an empty one when the stored value is empty too; a
      comment alone never does. */
  lemma StampRule(r: FileRecord, newName: Option<string>, newPath: Option<string>)
    ensures Stamps(r, newName, newPath) <==>
      || Given(newName) || Given(newPath)
      || (newName == Some("") && r.name == "")
      || (newPath == Some("") && r.pathFile == "")
    ensures newName.None? && newPath.None? ==> !Stamps(r, newName, newPath)
  {
  }

  /** Repeating an update with the same values and instant changes nothing
      more. */
  lemma UpdatedTwice(r: FileRecord, newName: Option<string>, newPath: Option<string>,
                     newComment: Option<string>, now: int)
    ensures var u := Updated(r, newName, newPath, newComment, now);
      Updated(u, newName, newPath, newComment, now) == u
  {
  }

  /** `upload_file`'s target directory: the given one, "C:/upload/" when
      it is empty. */
  function UploadDirectory(uploadPath: string): (d: string)
    ensures d != ""
    ensures uploadPath != "" ==> d == uploadPath
    ensures uploadPath == "" ==> d == "C:/upload/"
  {
    if uploadPath == "" then "C:/upload/" else uploadPath
  }

  /** The record `upload_file` builds as written: the whole file name as the
      name, and its extension once more as the extension. */
  function UploadInfoAsWritten(filename: string, uploadPath: string, size: nat): FileInfo {
    FileInfo(filename, SplitExt(filename), UploadDirectory(uploadPath), size as real)
  }

  /** The directory the corrected record stores: the upload directory
      without one trailing slash, so that the record's path is the path the
      file was written to rather than a spelling of it with a doubled slash. */
  function RecordDirectory(uploadPath: string): (d: string)
    ensures d == UploadDirectory(uploadPath) || d + "/" == UploadDirectory(uploadPath)
  {
    var u := UploadDirectory(uploadPath);
    if u[|u| - 1] == '/' then u[..|u| - 1] else u
  }

  /** The record with the name split as `os.path.splitext` splits it: the
      file name without its extension, then the extension. */
  function UploadInfo(filename: string, uploadPath: string, size: nat): (info: FileInfo)
    ensures info.name + info.extension == filename && info.extension == SplitExt(filename)
    ensures info.pathFile == RecordDirectory(uploadPath)
  {
    var ext := SplitExt(filename);
    FileInfo(filename[..|filename| - |ext|], ext, RecordDirectory(uploadPath), size as real)
  }

  /** The last component of a path: what follows its last slash. */
  function FinalComponent(p: string): string {
    p[LastIndex(p, '/') + 1..]
  }

  lemma FinalComponentAfterSlash(dir: string, name: string)
    requires '/' !in name
    ensures FinalComponent(dir + "/" + name) == name
  {
    var p := dir + "/" + name;
    var i := LastIndex(p, '/');
    assert p[|dir|] == '/';
    assert forall j :: |dir| < j < |p| ==> p[j] == name[j - |dir| - 1];
    assert i == |dir|;
    assert p[|dir| + 1..] == name;
  }

  /** The file `upload_file` writes is `os.path.join(directory, name)`; a
      file name without slashes is its last component. */
  lemma UploadLocation(filename: string, uploadPath: string)
    requires '/' !in filename
    ensures FinalComponent(Join(UploadDirectory(uploadPath), filename)) == filename
  {
    var d := UploadDirectory(uploadPath);
    assert filename == [] || filename[0] != '/' by {
      if filename != [] {
        assert filename[0] in filename;
      }
    }
    if d[|d| - 1] == '/' {
      var p := d + filename;
      var i := LastIndex(p, '/');
      assert p[|d| - 1] == '/';
      assert forall j :: |d| <= j < |p| ==> p[j] == filename[j - |d|];
      assert i == |d| - 1;
      assert p[|d|..] == filename;
    } else {
      FinalComponentAfterSlash(d, filename);
    }
  }

  /** As written, a record uploaded with an extension names a file whose
      last component repeats the extension, so it never names the file just
      written, in any spelling of the directory. */
  lemma UploadAsWrittenDoublesExtension(filename: string, uploadPath: string, size: nat)
    requires '/' !in filename && SplitExt(filename) != ""
    ensures var info := UploadInfoAsWritten(filename, uploadPath, size);
      && FinalComponent(InfoPath(info)) == filename + SplitExt(filename)
      && FinalComponent(InfoPath(info)) != FinalComponent(Join(UploadDirectory(uploadPath), filename))
  {
    var info := UploadInfoAsWritten(filename, uploadPath, size);
    var ext := SplitExt(filename);
    assert ext[0] in ext;
    assert InfoPath(info) == UploadDirectory(uploadPath) + "/" + (filename + ext);
    FinalComponentAfterSlash(UploadDirectory(uploadPath), filename + ext);
    UploadLocation(filename, uploadPath);
  }

  /** As written, a record uploaded into a directory spelled with a
      trailing slash (the default "C:/upload/") or a file with an extension
      names a path other than the one written. */
  lemma UploadAsWrittenMissesWrittenFile(filename: string, uploadPath: string, size: nat)
    requires '/' !in filename
    requires SplitExt(filename) != "" || UploadDirectory(uploadPath)[|UploadDirectory(uploadPath)| - 1] == '/'
    ensures InfoPath(UploadInfoAsWritten(filename, uploadPath, size)) != Join(UploadDirectory(uploadPath), filename)
  {
    var u := UploadDirectory(uploadPath);
    var ext := SplitExt(filename);
    assert filename == [] || filename[0] != '/' by {
      if filename != [] {
        assert filename[0] in filename;
      }
    }
    assert |InfoPath(UploadInfoAsWritten(filename, uploadPath, size))| == |u| + 1 + |filename| + |ext|;
  }

  /** The corrected record names the uploaded file itself: its path is the
      one `os.path.join` wrote to. */
  lemma UploadNamesWrittenFile(filename: string, uploadPath: string, size: nat)
    requires '/' !in filename
    ensures InfoPath(UploadInfo(filename, uploadPath, size)) == Join(UploadDirectory(uploadPath), filename)
  {
    var info := UploadInfo(filename, uploadPath, size);
    var u := UploadDirectory(uploadPath);
    assert filename == [] || filename[0] != '/' by {
      if filename != [] {
        assert filename[0] in filename;
      }
    }
    assert InfoPath(info) == info.pathFile + "/" + (info.name + info.extension);
  }

  /** `FileInfoView`: the listings, and a sync followed by a listing. It
      extends the reconciler, whose session it is given. */
  class FileInfoView {
    var sync: SyncFileWithDb

    ghost predicate Valid()
      reads this, sync, sync.db
    {
      sync.Valid()
    }

    constructor (db: Session)
      requires db.Valid() && db.pending == {}
      ensures Valid() && sync.db == db
    {
      sync := new SyncFileWithDb.Attach(db);
    }

    /** `synch_files`: reconcile, then one page of the rows whose directory
        contains the requested name. */
    method SynchFiles(directoryName: string, walk: seq<Visit>, paths: set<string>, offset: nat, limit: nat)
      returns (r: seq<FileRecord>)
      requires Valid() && WalksFrom(directoryName, walk)
      modifies sync.db
      ensures Valid()
      ensures sync.db.Snapshot() == Sync(old(sync.db.Snapshot()), walk, paths)
      ensures r == GetItemsByFolder(sync.db.rows, directoryName, offset, limit)
    {
      sync.SyncLocalStorageWithDb(directoryName, walk, paths);
      r := GetItemsByFolder(sync.db.rows, directoryName, offset, limit);
    }
  }

  /** `FileUpdateUploadDelView`: the operations that change a record and
      the file it describes together. */
  class FileUpdateUploadDelView {
    var db: Session
    var disk: Disk

    ghost predicate Valid()
      reads this, db
    {
      db.Valid() && db.pending == {}
    }

    constructor (db: Session, disk: Disk)
      requires db.Valid() && db.pending == {}
      ensures Valid() && this.db == db && this.disk == disk
    {
      this.db := db;
      this.disk := disk;
    }

    /** `update_item`: the merged fields are committed first; then the file
        is moved to the row's new path, or not-found is raised with the row
        already changed. */
    method UpdateItem(fileId: int, newName: Option<string>, newPath: Option<string>,
                      newComment: Option<string>, now: int) returns (r: Result<FileRecord>)
      requires Valid()
      modifies db, disk
      ensures Valid() && db.nextId == old(db.nextId)
      ensures FindById(old(db.rows), fileId).None? ==>
        r == Err(RecordNotFound) && db.rows == old(db.rows) && disk.paths == old(disk.paths)
      ensures FindById(old(db.rows), fileId).Some? ==>
        var k := FindById(old(db.rows), fileId).value;
        var u := Updated(old(db.rows)[k], newName, newPath, newComment, now);
        var source := BackingPath(old(db.rows)[k]);
        && db.rows == old(db.rows)[k := u]
        && (source in old(disk.paths) ==> r == Ok(u) && disk.paths == old(disk.paths) - {source} + {BackingPath(u)})
        && (source !in old(disk.paths) ==> r == Err(FileNotFound) && disk.paths == old(disk.paths))
    {
      var found := FindById(db.rows, fileId);
      if found.None? {
        return Err(RecordNotFound);
      }
      var k := found.value;
      var current := db.rows[k];
      var source := BackingPath(current);
      var u := Updated(current, newName, newPath, newComment, now);
      db.Replace(k, u);
      RemoveNoIds(db.rows);
      db.Commit();
      var target := BackingPath(u);
      if source in disk.paths {
        disk.Rename(source, target);
        r := Ok(u);
      } else {
        r := Err(FileNotFound);
      }
    }

    /** `upload_file`: writes the file into the upload directory and adds
        its row under the next id. */
    method UploadFile(filename: string, uploadPath: string, size: nat) returns (r: FileRecord)
      requires Valid()
      modifies db, disk
      ensures Valid()
      ensures r == Persist(UploadInfo(filename, uploadPath, size), old(db.nextId))
      ensures db.rows == old(db.rows) + [r] && db.nextId == old(db.nextId) + 1
      ensures disk.paths == old(disk.paths) + {Join(UploadDirectory(uploadPath), filename)}
      ensures '/' !in filename ==> BackingPath(r) in disk.paths
    {
      var directory := UploadDirectory(uploadPath);
      disk.Write(Join(directory, filename));
      r := db.Add(UploadInfo(filename, uploadPath, size));
      RemoveNoIds(db.rows);
      db.Commit();
      if '/' !in filename {
        UploadNamesWrittenFile(filename, uploadPath, size);
      }
    }

    /** `delete_item`: not-found for an unknown id; an error that leaves the
        row in place when its file is missing; otherwise the file and
        exactly that row are removed. */
    method DeleteItem(fileId: int) returns (err: Option<Error>)
      requires Valid()
      modifies db, disk
      ensures Valid() && db.nextId == old(db.nextId)
      ensures FindById(old(db.rows), fileId).None? ==>
        err == Some(RecordNotFound) && db.rows == old(db.rows) && disk.paths == old(disk.paths)
      ensures FindById(old(db.rows), fileId).Some? ==>
        var k := FindById(old(db.rows), fileId).value;
        var path := BackingPath(old(db.rows)[k]);
        && (path !in old(disk.paths) ==>
              err == Some(FileNotFound) && db.rows == old(db.rows) && disk.paths == old(disk.paths))
        && (path in old(disk.paths) ==>
              err == None && db.rows == old(db.rows)[..k] + old(db.rows)[k + 1..]
              && disk.paths == old(disk.paths) - {path})
    {
      var found := FindById(db.rows, fileId);
      if found.None? {
        return Some(RecordNotFound);
      }
      var k := found.value;
      var path := BackingPath(db.rows[k]);
      if path !in disk.paths {
        return Some(FileNotFound);
      }
      disk.Remove(path);
      RemoveOneId(db.rows, k);
      db.Delete(db.rows[k].fileId);
      assert db.pending == {db.rows[k].fileId};
      db.Commit();
      err := None;
    }
  }
}
