/**
 * The snapshot writer of the TCP number service: it sorts the numbers, writes
 * one 10-byte frame per number to `<path>.new` and renames that file over
 * `<path>`; every failure after the temporary file exists removes it again.
 */
module NumbersDump {
  import opened GoInts
  import opened Results
  import opened Binary
  import opened Protocol
  import opened Paths
  import opened FileSystem

  /** The step of `createNewDump` that failed, wrapping the file system's error. */
  datatype DumpStep =
    | CreateNewFile(cause: FsError)       // "create new file: %w"
    | WriteNumberToFile(cause: FsError)   // "write number to file: %w"
    | FlushBufferToFile(cause: FsError)   // "flush byffer to file: %w"

  datatype DumpError =
    | CreateNewDump(step: DumpStep)              // "create new dump: %w"
    | ChangeOldDumpToNewDump(cause: FsError)     // "change old dump to new dump: %w"

  /** Suffix of the file a new dump is written to before it replaces the old one. */
  const NewSuffix: string := ".new"

  predicate Ascending(s: seq<Int64>)
  {
    forall i, j :: 0 <= i < j < |s| ==> s[i] <= s[j]
  }

  /**
   * `sort.Slice(numbers, less)` with `less` comparing the numbers: the array
   * ends ascending and holds the same numbers. Sorting is by insertion; the
   * result is the same as Go's, since a sorted permutation is unique.
   */
  method SortAscending(a: array<Int64>)
    modifies a
    ensures Ascending(a[..])
    ensures multiset(a[..]) == multiset(old(a[..]))
  {
    var i := 0;
    while i < a.Length
      invariant 0 <= i <= a.Length
      invariant Ascending(a[..i])
      invariant multiset(a[..]) == multiset(old(a[..]))
    {
      InsertInto(a, i);
      i := i + 1;
    }
    assert a[..i] == a[..];
  }

  /** Moves `a[i]` left into the ascending prefix `a[..i]`. */
  method InsertInto(a: array<Int64>, i: nat)
    requires i < a.Length && Ascending(a[..i])
    modifies a
    ensures Ascending(a[..i + 1])
    ensures multiset(a[..]) == multiset(old(a[..]))
  {
    var j := i;
    while j > 0 && a[j - 1] > a[j]
      invariant 0 <= j <= i
      invariant forall k, l :: 0 <= k < l <= i && l != j ==> a[k] <= a[l]
      invariant forall l :: j < l <= i ==> a[j] < a[l]
      invariant 0 < j < i ==> a[j - 1] <= a[j + 1]
      invariant multiset(a[..]) == multiset(old(a[..]))
    {
      Swap(a, j - 1, j);
      j := j - 1;
    }
  }

  /** Exchanges two elements of `a`. */
  method Swap(a: array<Int64>, p: nat, q: nat)
    requires p < q < a.Length
    modifies a
    ensures a[p] == old(a[q]) && a[q] == old(a[p])
    ensures forall k :: 0 <= k < a.Length && k != p && k != q ==> a[k] == old(a[k])
    ensures multiset(a[..]) == multiset(old(a[..]))
  {
    a[p], a[q] := a[q], a[p];
  }

  /** The buffer before the next `PutVarint`: the last frame written, or zeroes before the first. */
  function Latest(frames: seq<Frame>): Frame
  {
    if frames == [] then ZeroFrame else frames[|frames| - 1]
  }

  /**
   * The frames written for `numbers`, one reused buffer overwritten by
   * `PutVarint` for each number in turn.
   */
  function DumpFrames(numbers: seq<Int64>): (frames: seq<Frame>)
    ensures |frames| == |numbers|
  {
    if numbers == [] then []
    else
      var before := DumpFrames(numbers[..|numbers| - 1]);
      before + [PutFrame(Latest(before), numbers[|numbers| - 1])]
  }

  /** Frames laid end to end. */
  function Concat(frames: seq<Frame>): (bytes: seq<Byte>)
    ensures |bytes| == FrameSize * |frames|
  {
    if frames == [] then [] else Concat(frames[..|frames| - 1]) + frames[|frames| - 1]
  }

  /** The content of a dump of `numbers`. */
  function Dump(numbers: seq<Int64>): seq<Byte>
  {
    Concat(DumpFrames(numbers))
  }

  /** The i-th 10-byte block of a dump. */
  function Block(bytes: seq<Byte>, i: nat): Frame
    requires FrameSize * i + FrameSize <= |bytes|
  {
    bytes[FrameSize * i..FrameSize * i + FrameSize]
  }

  lemma {:induction false} ConcatBlock(frames: seq<Frame>, i: nat)
    requires i < |frames|
    ensures Block(Concat(frames), i) == frames[i]
    decreases |frames|
  {
    var init := frames[..|frames| - 1];
    assert Concat(frames) == Concat(init) + frames[|frames| - 1];
    if i < |frames| - 1 {
      ConcatBlock(init, i);
      assert Block(Concat(frames), i) == Block(Concat(init), i);
    }
  }

  lemma {:induction false} DumpFrameDecodes(numbers: seq<Int64>, i: nat)
    requires i < |numbers|
    ensures ParseFrame(DumpFrames(numbers)[i]) == Ok(numbers[i])
    decreases |numbers|
  {
    var init := numbers[..|numbers| - 1];
    var before := DumpFrames(init);
    if i == |numbers| - 1 {
      FrameRoundTrip(Latest(before), numbers[i]);
    } else {
      DumpFrameDecodes(init, i);
      assert DumpFrames(numbers)[i] == before[i];
    }
  }

  /**
   * A dump holds ten bytes per number, and its i-th block decodes to the
   * i-th number although the buffer kept stale bytes from earlier numbers.
   */
  lemma DumpLayout(numbers: seq<Int64>)
    ensures |Dump(numbers)| == FrameSize * |numbers|
    ensures forall i :: 0 <= i < |numbers| ==> ParseFrame(Block(Dump(numbers), i)) == Ok(numbers[i])
  {
    forall i | 0 <= i < |numbers|
      ensures ParseFrame(Block(Dump(numbers), i)) == Ok(numbers[i])
    {
      ConcatBlock(DumpFrames(numbers), i);
      DumpFrameDecodes(numbers, i);
    }
  }

  /** Writing the frame of the next number extends the dump by that frame. */
  lemma DumpGrows(numbers: seq<Int64>, i: nat)
    requires i < |numbers|
    ensures var f := PutFrame(Latest(DumpFrames(numbers[..i])), numbers[i]);
      && DumpFrames(numbers[..i + 1]) == DumpFrames(numbers[..i]) + [f]
      && Latest(DumpFrames(numbers[..i + 1])) == f
      && Dump(numbers[..i + 1]) == Dump(numbers[..i]) + f
      && |Dump(numbers[..i])| == FrameSize * i
  {
    assert numbers[..i + 1][..i] == numbers[..i];
    var frames := DumpFrames(numbers[..i + 1]);
    assert frames[..|frames| - 1] == DumpFrames(numbers[..i]);
  }

  /** The write of the j-th frame: it appends at offset 10·j. */
  function WriteAt(path: string, j: nat): FsOp
  {
    WriteOp(path, FrameSize * j)
  }

  ghost predicate WritesAccepted(refused: set<FsOp>, path: string, k: nat)
  {
    forall j :: 0 <= j < k ==> WriteAt(path, j) !in refused
  }

  lemma WritesAcceptedGrow(refused: set<FsOp>, path: string, i: nat)
    requires WritesAccepted(refused, path, i) && WriteAt(path, i) !in refused
    ensures WritesAccepted(refused, path, i + 1)
  {
  }

  /** How many of `n` frame writes succeed before the first refused one. */
  function FailedWrite(refused: set<FsOp>, path: string, n: nat): (k: nat)
    ensures k <= n
    ensures WritesAccepted(refused, path, k)
    ensures k < n ==> WriteAt(path, k) in refused
  {
    if n == 0 then 0
    else
      var k := FailedWrite(refused, path, n - 1);
      if k < n - 1 then k
      else if WriteAt(path, n - 1) in refused then n - 1
      else n
  }

  lemma FailedWriteIs(refused: set<FsOp>, path: string, n: nat, i: nat)
    requires i <= n && WritesAccepted(refused, path, i)
    requires i < n ==> WriteAt(path, i) in refused
    ensures FailedWrite(refused, path, n) == i
  {
  }

  /**
   * The files and the error after `createNewDump` writes `numbers` to `tmp`:
   * create, one write per number, flush; a failed write or flush removes
   * the file again.
   */
  function CreateNewDumpOutcome(files: Files, refused: set<FsOp>, tmp: string, numbers: seq<Int64>)
    : (r: (Files, Option<DumpStep>))
    ensures r.1.None? <==> CreateOp(tmp) !in refused && WritesAccepted(refused, tmp, |numbers|) && FlushOp(tmp) !in refused
    ensures r.1.None? ==> r.0 == files[tmp := Dump(numbers)]
    ensures OthersUnchanged(files, r.0, tmp, tmp)
  {
    if CreateOp(tmp) in refused then (files, Some(CreateNewFile(PathError(CreateOp(tmp)))))
    else
      var k := FailedWrite(refused, tmp, |numbers|);
      var written := files[tmp := Dump(numbers[..k])];
      if k < |numbers| then
        (Removed(written, refused, tmp), Some(WriteNumberToFile(PathError(WriteAt(tmp, k)))))
      else if FlushOp(tmp) in refused then
        (Removed(written, refused, tmp), Some(FlushBufferToFile(PathError(FlushOp(tmp)))))
      else assert numbers[..k] == numbers; (written, None)
  }

  /** The files and the error after `Save` of the already sorted `numbers` to `path`. */
  function SaveOutcome(files: Files, refused: set<FsOp>, path: string, numbers: seq<Int64>)
    : (r: (Files, Option<DumpError>))
    ensures r.1.None? ==> path in r.0 && r.0[path] == Dump(numbers)
    ensures OthersUnchanged(files, r.0, path, path + NewSuffix)
  {
    var tmp := path + NewSuffix;
    var (created, stepErr) := CreateNewDumpOutcome(files, refused, tmp, numbers);
    if stepErr.Some? then (created, Some(DumpError.CreateNewDump(stepErr.value)))
    else if RenameOp(tmp, path) in refused then
      (Removed(created, refused, tmp), Some(ChangeOldDumpToNewDump(LinkError(RenameOp(tmp, path)))))
    else ((created - {tmp})[path := created[tmp]], None)
  }

  /** Every call `Save` makes on the file system for a dump of `n` numbers succeeds. */
  ghost predicate SaveAllowed(refused: set<FsOp>, path: string, n: nat)
  {
    var tmp := path + NewSuffix;
    CreateOp(tmp) !in refused && WritesAccepted(refused, path + NewSuffix, n)
      && FlushOp(tmp) !in refused && RenameOp(tmp, path) !in refused
  }

  /** Files other than `a` and `b` are the same in both maps. */
  ghost predicate OthersUnchanged(before: Files, after: Files, a: string, b: string)
  {
    forall p :: p != a && p != b ==> (p in after <==> p in before) && (p in after ==> after[p] == before[p])
  }

  /**
   * `Save` succeeds exactly when every file operation does; then the
   * canonical path holds the dump, the temporary file is gone and no other
   * file changed.
   */
  lemma SaveSucceeds(files: Files, refused: set<FsOp>, path: string, numbers: seq<Int64>)
    ensures SaveOutcome(files, refused, path, numbers).1.None? <==> SaveAllowed(refused, path, |numbers|)
    ensures SaveOutcome(files, refused, path, numbers).1.None? ==>
      var after := SaveOutcome(files, refused, path, numbers).0;
      path in after && after[path] == Dump(numbers) && path + NewSuffix !in after
        && OthersUnchanged(files, after, path, path + NewSuffix)
  {
    var tmp := path + NewSuffix;
    assert tmp != path by {
      assert |tmp| == |path| + 4;
    }
    var k := FailedWrite(refused, tmp, |numbers|);
    if SaveAllowed(refused, path, |numbers|) {
      FailedWriteIs(refused, tmp, |numbers|, |numbers|);
      assert numbers[..k] == numbers;
    } else if CreateOp(tmp) !in refused && FlushOp(tmp) !in refused && RenameOp(tmp, path) !in refused {
      assert k < |numbers|;
    }
  }

  /**
   * When `Save` fails the canonical file and every other file are as they
   * were; the temporary file is left only where it was never created or
   * its removal is refused.
   */
  lemma SaveFailureKeepsOldDump(files: Files, refused: set<FsOp>, path: string, numbers: seq<Int64>)
    requires SaveOutcome(files, refused, path, numbers).1.Some?
    ensures
      var after := SaveOutcome(files, refused, path, numbers).0;
      var tmp := path + NewSuffix;
      (path in after <==> path in files) && (path in files ==> after[path] == files[path])
        && OthersUnchanged(files, after, path, tmp)
        && (CreateOp(tmp) in refused ==> after == files)
        && (CreateOp(tmp) !in refused ==> (tmp in after <==> RemoveOp(tmp) in refused))
  {
    var tmp := path + NewSuffix;
    assert tmp != path by {
      assert |tmp| == |path| + 4;
    }
  }

  /**
   * One turn of the writing loop: the number goes into the frame buffer
   * over what the previous number left there, and the whole buffer is
   * appended to the file.
   */
  method AppendFrame(fs: FileSystem, path: string, buf: array<Byte>, ghost ns: seq<Int64>, i: nat, x: Int64)
    returns (err: Option<FsError>)
    requires i < |ns| && x == ns[i] && buf.Length == FrameSize
    requires path in fs.files && fs.files[path] == Dump(ns[..i])
    requires buf[..] == Latest(DumpFrames(ns[..i]))
    modifies buf, fs`files
    ensures buf[..] == Latest(DumpFrames(ns[..i + 1]))
    ensures err.None? <==> WriteAt(path, i) !in fs.refused
    ensures err.None? ==> fs.files == old(fs.files)[path := Dump(ns[..i + 1])]
    ensures err.Some? ==> fs.files == old(fs.files) && err.value == PathError(WriteAt(path, i))
  {
    ghost var frames := DumpFrames(ns[..i]);
    var _ := PutVarint(buf, x);
    var frame := buf[..];
    assert frame == PutFrame(Latest(frames), ns[i]);
    DumpGrows(ns, i);
    err := fs.Write(path, frame);
  }

  /**
   * The loop of `createNewDump`: `PutVarint` of each number into one reused
   * 10-byte buffer and a write of the whole buffer, up to the first write
   * that fails.
   */
  method WriteNumbers(fs: FileSystem, path: string, numbers: array<Int64>) returns (err: Option<FsError>)
    requires path in fs.files && fs.files[path] == []
    modifies fs`files
    ensures var k := FailedWrite(fs.refused, path, numbers.Length);
      && fs.files == old(fs.files)[path := Dump(numbers[..k])]
      && (err.Some? <==> k < numbers.Length)
      && (err.Some? ==> err.value == PathError(WriteAt(path, k)))
  {
    ghost var ns := numbers[..];
    var buf := new Byte[FrameSize](_ => 0);
    assert buf[..] == ZeroFrame;
    var i := 0;
    while i < numbers.Length
      invariant 0 <= i <= numbers.Length
      invariant buf.Length == FrameSize
      invariant fs.files == old(fs.files)[path := Dump(ns[..i])]
      invariant buf[..] == Latest(DumpFrames(ns[..i]))
      invariant WritesAccepted(fs.refused, path, i)
    {
      err := AppendFrame(fs, path, buf, ns, i, numbers[i]);
      if err.Some? {
        FailedWriteIs(fs.refused, path, numbers.Length, i);
        return;
      }
      WritesAcceptedGrow(fs.refused, path, i);
      i := i + 1;
    }
    assert ns[..i] == numbers[..];
    FailedWriteIs(fs.refused, path, numbers.Length, numbers.Length);
    err := None;
  }

  class DumpFile {
    const filePath: string

    /** `NewDumpFile(dir, fileName)`. */
    constructor(dir: string, fileName: string)
      ensures filePath == Join(dir, fileName)
    {
      filePath := Join(dir, fileName);
    }

    /**
     * Sorts `numbers` in place, so that the caller sees the order, then
     * writes the dump and moves it over the canonical path.
     */
    method Save(fs: FileSystem, numbers: array<Int64>) returns (err: Option<DumpError>)
      modifies numbers, fs`files
      ensures Ascending(numbers[..]) && multiset(numbers[..]) == multiset(old(numbers[..]))
      ensures (fs.files, err) == SaveOutcome(old(fs.files), fs.refused, filePath, numbers[..])
    {
      SortAscending(numbers);
      var newFilePath, stepErr := CreateNewDump(fs, numbers);
      if stepErr.Some? {
        return Some(DumpError.CreateNewDump(stepErr.value));
      }
      var renameErr := fs.Rename(newFilePath, filePath);
      if renameErr.Some? {
        var _ := fs.Remove(newFilePath);
        return Some(ChangeOldDumpToNewDump(renameErr.value));
      }
      return None;
    }

    /** `createNewDump`: writes the dump of `numbers` to `<filePath>.new`. */
    method CreateNewDump(fs: FileSystem, numbers: array<Int64>) returns (newFilePath: string, err: Option<DumpStep>)
      modifies fs`files
      ensures newFilePath == filePath + NewSuffix
      ensures (fs.files, err) == CreateNewDumpOutcome(old(fs.files), fs.refused, newFilePath, numbers[..])
    {
      newFilePath := filePath + NewSuffix;
      var createErr := fs.Create(newFilePath);
      if createErr.Some? {
        return newFilePath, Some(CreateNewFile(createErr.value));
      }
      ghost var k := FailedWrite(fs.refused, newFilePath, numbers.Length);
      ghost var written := old(fs.files)[newFilePath := Dump(numbers[..k])];
      assert fs.files[newFilePath := Dump(numbers[..k])] == written;
      assert numbers[..][..k] == numbers[..k];
      var writeErr := WriteNumbers(fs, newFilePath, numbers);
      assert fs.files == written;
      if writeErr.Some? {
        var _ := fs.Remove(newFilePath);
        return newFilePath, Some(WriteNumberToFile(writeErr.value));
      }
      var flushErr := fs.Flush(newFilePath);
      if flushErr.Some? {
        var _ := fs.Remove(newFilePath);
        return newFilePath, Some(FlushBufferToFile(flushErr.value));
      }
      return newFilePath, None;
    }
  }
}
