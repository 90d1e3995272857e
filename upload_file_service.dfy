/**
 * The file service of the gRPC upload example: it saves an uploaded file
 * and describes it by a header carrying its name, extension and size. The
 * file system's save call is a parameter, a function of the file name.
 */
module UploadFileService {
  import opened GoInts
  import opened Results
  import opened Paths

  /** The error the file system's save returned, as its message. */
  datatype StoreError = StoreError(message: string)

  datatype FileInfo = FileInfo(Name: string)

  datatype FileHeader = FileHeader(Name: string, Extension: string, Size: Uint64)

  datatype ServiceError = SaveFileInFileSystem(cause: StoreError)   // "save file in file system: %w"

  /**
   * `FilesService.UploadFile`: one save under the unmodified name; its
   * error is wrapped, and otherwise the header names the file, its
   * extension and the size the save reported.
   */
  function UploadFile(saveFile: string -> Result<Uint64, StoreError>, info: FileInfo): (r: Result<FileHeader, ServiceError>)
    ensures r.Err? <==> saveFile(info.Name).Err?
    ensures r.Err? ==> r.error == SaveFileInFileSystem(saveFile(info.Name).error)
    ensures r.Ok? ==> r.value.Name == info.Name && r.value.Size == saveFile(info.Name).value
    ensures r.Ok? ==> r.value.Extension == Ext(info.Name)
  {
    var extension := Ext(info.Name);
    match saveFile(info.Name)
    case Err(e) => Err(SaveFileInFileSystem(e))
    case Ok(size) => Ok(FileHeader(info.Name, extension, size))
  }
}
