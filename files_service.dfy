/**
 * The file service of the gRPC files example: it lists, uploads and
 * downloads files through a file-system interface and describes each file
 * by a header whose content type is the file name's extension. The
 * interface's calls are parameters: the listing it returned, and the save
 * and read calls as functions of the file name.
 */
module FilesService {
  import opened GoInts
  import opened Results
  import opened Paths

  /** The error a file-system call returned, as its message. */
  datatype StoreError = StoreError(message: string)

  /** A file's content, read to its end. */
  type Content = seq<Byte>

  datatype FileInfo = FileInfo(Name: string, Size: Uint64)

  datatype FileHeader = FileHeader(Name: string, ContentType: string, Size: Uint64)

  datatype ServiceError =
    | GetListOfFilesInfo(cause: StoreError)     // "get list of files info: %w"
    | SaveFileInFileSystem(cause: StoreError)   // "save file in file system: %w"
    | StartReadFile(cause: StoreError)          // "start read file: %w"
    | ErrFileNotFound                           // "file not found"

  /** What `ReadFile` returns: a size and the content, which is nil for a missing file. */
  type ReadOutcome = Result<(Uint64, Option<Content>), StoreError>

  /**
   * `ListFilesHeader`: one header per listed file, in the listing's order,
   * with its name and size and its extension as content type; a listing
   * error is wrapped.
   */
  method ListFilesHeader(listed: Result<seq<FileInfo>, StoreError>) returns (r: Result<seq<FileHeader>, ServiceError>)
    ensures listed.Err? ==> r == Err(GetListOfFilesInfo(listed.error))
    ensures listed.Ok? ==> r.Ok? && |r.value| == |listed.value|
    ensures listed.Ok? ==> forall i :: 0 <= i < |listed.value| ==>
      && r.value[i].Name == listed.value[i].Name
      && r.value[i].Size == listed.value[i].Size
      && r.value[i].ContentType == Ext(listed.value[i].Name)
  {
    if listed.Err? {
      return Err(GetListOfFilesInfo(listed.error));
    }
    var filesInfo := listed.value;
    var filesHeader := new FileHeader[|filesInfo|](_ => FileHeader("", "", 0));
    for i := 0 to |filesInfo|
      invariant forall k :: 0 <= k < i ==>
        filesHeader[k] == FileHeader(filesInfo[k].Name, Ext(filesInfo[k].Name), filesInfo[k].Size)
    {
      var extension := Ext(filesInfo[i].Name);
      filesHeader[i] := FileHeader(filesInfo[i].Name, extension, filesInfo[i].Size);
    }
    return Ok(filesHeader[..]);
  }

  /**
   * `UploadFile`: saves under the given name and describes the saved file
   * by that name, its extension and the size the save reported.
   */
  function UploadFile(saveFile: string -> Result<Uint64, StoreError>, name: string): (r: Result<FileHeader, ServiceError>)
    ensures r.Err? <==> saveFile(name).Err?
    ensures r.Err? ==> r.error == SaveFileInFileSystem(saveFile(name).error)
    ensures r.Ok? ==> r.value.Name == name && r.value.Size == saveFile(name).value
    ensures r.Ok? ==> r.value.ContentType == Ext(name)
  {
    var extension := Ext(name);
    match saveFile(name)
    case Err(e) => Err(SaveFileInFileSystem(e))
    case Ok(size) => Ok(FileHeader(name, extension, size))
  }

  /**
   * `DownloadFile`: a read error is wrapped, a nil content is "file not
   * found", and otherwise the header and the content are returned.
   */
  function DownloadFile(readFile: string -> ReadOutcome, name: string): (r: Result<(FileHeader, Content), ServiceError>)
    ensures r == Err(ErrFileNotFound) <==> readFile(name).Ok? && readFile(name).value.1.None?
    ensures readFile(name).Err? ==> r == Err(StartReadFile(readFile(name).error))
    ensures r.Ok? <==> readFile(name).Ok? && readFile(name).value.1.Some?
    ensures r.Ok? ==>
      && r.value.0.Name == name && r.value.0.ContentType == Ext(name)
      && r.value.0.Size == readFile(name).value.0
      && r.value.1 == readFile(name).value.1.value
  {
    match readFile(name)
    case Err(e) => Err(StartReadFile(e))
    case Ok((size, fileContent)) =>
      if fileContent.None? then Err(ErrFileNotFound)
      else
        var extension := Ext(name);
        Ok((FileHeader(name, extension, size), fileContent.value))
  }

  /**
   * A file downloaded with the size it was uploaded with gets the header
   * its upload returned, and that header is the one a listing of the
   * file gives.
   */
  lemma UploadDownloadAgree(saveFile: string -> Result<Uint64, StoreError>, readFile: string -> ReadOutcome, name: string)
    requires saveFile(name).Ok? && readFile(name).Ok? && readFile(name).value.1.Some?
    requires readFile(name).value.0 == saveFile(name).value
    ensures UploadFile(saveFile, name).Ok? && DownloadFile(readFile, name).Ok?
    ensures DownloadFile(readFile, name).value.0 == UploadFile(saveFile, name).value
    ensures UploadFile(saveFile, name).value == FileHeader(name, Ext(name), saveFile(name).value)
  {
  }
}
