/**
 * The part of the operating system's file API the dump writer uses, as an
 * abstract map from path to content. Which calls fail is fixed up front by
 * the set `refused`: an operation in it fails without changing anything.
 */
module FileSystem {
  import opened GoInts
  import opened Results

  /** One call on the file system; a write is identified by the offset it appends at. */
  datatype FsOp =
    | CreateOp(path: string)
    | WriteOp(path: string, offset: nat)
    | FlushOp(path: string)
    | RenameOp(from: string, to: string)
    | RemoveOp(path: string)

  /**
   * The error of a failed call: an `*os.PathError` for the calls on one
   * path, an `*os.LinkError` for `os.Rename`.
   */
  datatype FsError = PathError(op: FsOp) | LinkError(op: FsOp)

  type Files = map<string, seq<Byte>>

  /** The files after `os.Remove(path)`: gone if it existed and the call is allowed. */
  function Removed(files: Files, refused: set<FsOp>, path: string): (r: Files)
    ensures path !in r <==> path !in files || RemoveOp(path) !in refused
    ensures forall p :: p != path ==> (p in r <==> p in files)
    ensures forall p :: p in r ==> p in files && r[p] == files[p]
  {
    if path in files && RemoveOp(path) !in refused then files - {path} else files
  }

  class FileSystem {
    var files: Files
    const refused: set<FsOp>

    constructor(files: Files, refused: set<FsOp>)
      ensures this.files == files && this.refused == refused
    {
      this.files := files;
      this.refused := refused;
    }

    /** `os.Create(path)`: an empty file at `path`, replacing what was there. */
    method Create(path: string) returns (err: Option<FsError>)
      modifies this`files
      ensures CreateOp(path) in refused ==> err == Some(PathError(CreateOp(path))) && files == old(files)
      ensures CreateOp(path) !in refused ==> err == None && files == old(files)[path := []]
    {
      if CreateOp(path) in refused {
        err := Some(PathError(CreateOp(path)));
      } else {
        files := files[path := []];
        err := None;
      }
    }

    /** A write of `data` at the end of the file at `path`. */
    method Write(path: string, data: seq<Byte>) returns (err: Option<FsError>)
      modifies this`files
      ensures err.None? <==> path in old(files) && WriteOp(path, |old(files)[path]|) !in refused
      ensures err.None? ==> files == old(files)[path := old(files)[path] + data]
      ensures err.Some? ==> files == old(files)
      ensures err.Some? ==> err.value == PathError(WriteOp(path, if path in old(files) then |old(files)[path]| else 0))
    {
      if path !in files {
        err := Some(PathError(WriteOp(path, 0)));
      } else if WriteOp(path, |files[path]|) in refused {
        err := Some(PathError(WriteOp(path, |files[path]|)));
      } else {
        files := files[path := files[path] + data];
        err := None;
      }
    }

    /** Pushing buffered data of `path` to the device; it changes no content. */
    method Flush(path: string) returns (err: Option<FsError>)
      ensures err.Some? <==> FlushOp(path) in refused
      ensures err.Some? ==> err.value == PathError(FlushOp(path))
    {
      if FlushOp(path) in refused {
        err := Some(PathError(FlushOp(path)));
      } else {
        err := None;
      }
    }

    /** `os.Rename(from, to)`: the content of `from` now lives at `to`, replacing it. */
    method Rename(from: string, to: string) returns (err: Option<FsError>)
      modifies this`files
      ensures from in old(files) && RenameOp(from, to) !in refused ==>
        err == None && files == (old(files) - {from})[to := old(files)[from]]
      ensures from !in old(files) || RenameOp(from, to) in refused ==>
        err == Some(LinkError(RenameOp(from, to))) && files == old(files)
    {
      if from in files && RenameOp(from, to) !in refused {
        files := (files - {from})[to := files[from]];
        err := None;
      } else {
        err := Some(LinkError(RenameOp(from, to)));
      }
    }

    /** `os.Remove(path)`. */
    method Remove(path: string) returns (err: Option<FsError>)
      modifies this`files
      ensures files == Removed(old(files), refused, path)
      ensures err.None? <==> path in old(files) && RemoveOp(path) !in refused
    {
      if path in files && RemoveOp(path) !in refused {
        files := files - {path};
        err := None;
      } else {
        err := Some(PathError(RemoveOp(path)));
      }
    }
  }
}
