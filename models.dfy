/** The row of the `new_file_info` table and the values the operations
    return. */
module Models {

  datatype Option<T> = None | Some(value: T)

  /** The two failures the file operations raise, both as HTTP 404: no row
      with the requested id, and no file at the row's backing path. */
  datatype Error = RecordNotFound | FileNotFound

  datatype Result<T> = Ok(value: T) | Err(error: Error)

  /** The columns the application fills in before the row is saved; the
      database then adds the id. */
  datatype FileInfo = FileInfo(name: string, extension: string, pathFile: string, size: real)

  /** One stored row. `dateChange` holds the instant of the last metadata
      edit, `None` until there is one. */
  datatype FileRecord = FileRecord(
    fileId: int,
    name: string,
    extension: string,
    pathFile: string,
    size: real,
    dateChange: Option<int>,
    comment: Option<string>)

  /** The row saved for `info` under the id the database assigns. */
  function Persist(info: FileInfo, id: int): FileRecord {
    FileRecord(id, info.name, info.extension, info.pathFile, info.size, None, None)
  }

  /** The file a row describes: `f"{path_file}/{name}{extension}"`. */
  function BackingPath(r: FileRecord): string {
    r.pathFile + "/" + r.name + r.extension
  }

  function InfoPath(info: FileInfo): string {
    info.pathFile + "/" + info.name + info.extension
  }
}
