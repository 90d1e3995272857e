# go-examples, modelled in Dafny

This project models the working parts of the `EmptyShadow/go-examples`
repository and proves properties of them.

**The TCP number service** (`tcp-server-client`). A client sends signed 64-bit
numbers over TCP. Each number is a 10-byte frame that holds the number's
zig-zag varint encoding (Go's `binary.PutVarint`). The server answers every
frame with one frame of the same shape. The model covers:

- `Protocol`: reading and writing one frame, with the errors
  "read large number" and "buf is small".
- `InmemorySetOfNumbers`: the set of distinct numbers, and the stream that
  walks it under a context.
- `NumbersHandler`: saves a number and answers with the sum of squares of
  the whole set, in wrapping `int64` arithmetic. The code as written stops
  after the first number the stream yields (see Findings). The model keeps
  that loop as `SumOfSquaresAsWritten`, and everything downstream of it
  uses the corrected `CalculateSumOfSquares`: where the model's server
  answers 25 for {3, 4}, the Go server answers 9 or 16.
- `ConnectionHandler.HandleConnection`: the connection loop that shares one
  set between all connections.
- `handleConnection` in `cmd/server/main.go`: a loop with its own running
  sum, where a repeated number counts again.
- `DumpFile`: writes the sorted numbers as frames to `<path>.new` and renames
  that file over `<path>`.

**The two gRPC file services.** `ListFilesHeader`, `UploadFile` and
`DownloadFile` of `grpc-files`, and `UploadFile` of `grpc-upload-file`. These
build file headers from what the storage layer reports. The content type or
extension is `filepath.Ext` of the name.

**The streaming JSON reader** (`json/channel`). It pulls tokens of
`{"results": [{"field": ...}, ...], "total": n}` one at a time from a decoder.
It sends each result as soon as it is read, and reports every error without
stopping.

How the model is set up:

- Connections are scripted. Each `Read` takes the next entry of a sequence:
  a whole frame, a closed peer (EOF) or a broken connection. Each `Write` is
  accepted until an optional budget runs out.
- The file system is a map from path to bytes. A fixed set of refused
  operations stands for the calls that fail.
- The storage layer of the gRPC services is a function parameter.
- The JSON decoder is a sequence of tokens plus a position.
- Loops are Dafny methods. Each is proved equal to a recursive
  specification function, and the properties are proved as lemmas about
  those functions.

## Model

| member | source | states |
|---|---|---|
| GoInts.Wrap64 | tcp-server-client/cmd/server/numbers_handler.go:51 | the result is the `int64` that Go's wrapping arithmetic gives: congruent to the exact value modulo 2^64, and equal to it when it fits |
| Binary.ZigZag | tcp-server-client/protocol.go:39 | the zig-zag map is undone by `UnZigZag`, and non-negative numbers map to even codes |
| Binary.ZigZagUnZigZag | tcp-server-client/protocol.go:27 | zig-zag decoding is undone by encoding, so the two maps are inverse bijections |
| Binary.UnZigZag | tcp-server-client/protocol.go:27 | decoding a zig-zag code gives a non-negative number exactly for an even code: 2·x encodes x ≥ 0 and −2·x − 1 encodes x < 0 |
| Binary.UvarintBytesTerminated | tcp-server-client/protocol.go:39 | an unsigned varint sets the continuation bit on every byte but the last |
| Binary.UvarintBytes | tcp-server-client/protocol.go:39 | the base-128 bytes that `binary.PutVarint` writes for an unsigned value, low seven bits first; its properties are stated by `UvarintBytesTerminated`, `EncodingFits` and `UvarintFromEncoded` |
| Binary.LimitOfFirstByte | tcp-server-client/protocol.go:27 | a varint read from the first byte may reach exactly the values below 2^64 |
| Binary.Limit | tcp-server-client/protocol.go:27 | the bound on the value a varint read may still add from byte i onwards, at least 2, and 2 at the tenth byte, where `binary.Uvarint` allows only 0 or 1 |
| Binary.EncodingFits | tcp-server-client/protocol.go:39 | a value under the limit for a position fits in the remaining bytes of a 10-byte buffer, and a tenth byte is at most 1 |
| Binary.VarintBytes | tcp-server-client/protocol.go:39 | every `int64` encodes in 1 to 10 bytes, with the continuation bits well formed and a tenth byte of at most 1 |
| Binary.UvarintFromBound | tcp-server-client/protocol.go:27 | a successful read from a position gives a value within that position's limit |
| Binary.UvarintFrom | tcp-server-client/protocol.go:27 | `binary.Uvarint` read from index i: a failed read (count ≤ 0) gives the value 0; a successful one ends after i, inside the buffer, on a byte without the continuation bit, and within the first 10 bytes; an overflow count is below −i |
| Binary.Uvarint | tcp-server-client/protocol.go:27 | a failed or truncated read gives the value 0 |
| Binary.Varint | tcp-server-client/protocol.go:27 | `binary.Varint` reports the same byte count as `Uvarint`, gives 0 when the read fails, and a successful read takes at most the buffer and at most 10 bytes |
| Binary.UvarintFromEncoded | tcp-server-client/protocol.go:27 | reading an encoded value from any position gives that value back, and the read ends right after its bytes |
| Binary.VarintRoundTrip | tcp-server-client/protocol.go:27-39 | `Varint` decodes what `PutVarint` encodes, whatever bytes follow, and reports the encoding's length |
| Binary.TruncatedFrom | tcp-server-client/protocol.go:31-33 | a read reports 0 bytes exactly when every remaining byte has its continuation bit set |
| Binary.OverflowFrom | tcp-server-client/protocol.go:28-30 | a read reports overflow exactly when the tenth byte is reached with more than 1 in it, and the count is then -10 |
| Binary.PutVarint | tcp-server-client/protocol.go:39 | the buffer starts with the number's encoding, the bytes after it keep their old values, and the count returned is the encoding's length |
| Protocol.FrameRoundTrip | tcp-server-client/protocol.go:21-46 | a frame written over any stale buffer content reads back as the number written |
| Protocol.BufIsSmallExactly | tcp-server-client/protocol.go:31-33 | a frame is rejected as "buf is small" exactly when all ten bytes have the continuation bit |
| Protocol.ReadLargeNumberExactly | tcp-server-client/protocol.go:28-30 | a frame is rejected as "read large number" exactly when its varint runs past 64 bits |
| Protocol.PutFrame | tcp-server-client/protocol.go:39 | the buffer after `binary.PutVarint`: the number's varint over the front of the frame, the stale bytes after it. It has no contract of its own; `FrameRoundTrip` and `PutVarint` state its properties |
| Protocol.ParseFrame | tcp-server-client/protocol.go:27-35 | `binary.Varint` on a frame followed by the reader's checks: a negative count is "read large number", a zero count "buf is small", otherwise the decoded number. It has no contract of its own; `FrameRoundTrip`, `BufIsSmallExactly` and `ReadLargeNumberExactly` state its properties |
| Protocol.RequestsOfPrefix | tcp-server-client/cmd/server/connection_handler.go:40-47 | the numbers decoded from a prefix of the reads are the first number followed by those decoded from the rest |
| Protocol.Conn.constructor | tcp-server-client/protocol.go:11 | a connection starts with its scripted reads, nothing written, and its write budget |
| Protocol.Conn.Read | tcp-server-client/protocol.go:22 | a read takes the next scripted entry: a frame fills the buffer, while EOF and a reset leave it unchanged and return their error |
| Protocol.Conn.Write | tcp-server-client/protocol.go:41 | a write appends the full 10-byte buffer and uses one unit of the budget, or fails with nothing written once the budget is spent |
| Protocol.Protocol.constructor | tcp-server-client/protocol.go:15-19 | a new `Protocol` wraps the connection and a zeroed 10-byte buffer |
| Protocol.Protocol.ReadNumber | tcp-server-client/protocol.go:21-36 | returns the number the frame decodes to, or 0 with the read error, "read large number" or "buf is small" |
| Protocol.Protocol.WriteNumber | tcp-server-client/protocol.go:38-46 | the buffer becomes the number's frame over the stale bytes, and the whole frame is written, or the write error is wrapped |
| NumberSet.InmemorySetOfNumbers.constructor | tcp-server-client/cmd/server/inmemory_set_of_numbers.go:15-19 | a new set is empty |
| NumberSet.InmemorySetOfNumbers.SaveNumber | tcp-server-client/cmd/server/inmemory_set_of_numbers.go:21-24 | saving adds the number to the set, so saving it again changes nothing, and never fails |
| NumberSet.InmemorySetOfNumbers.StreamOfNumbers | tcp-server-client/cmd/server/inmemory_set_of_numbers.go:26-46 | sends each number of the set at most once and leaves the set unchanged; it ends without error and having sent every number exactly when the context stays live, and otherwise reports the context's error after the numbers sent before it ended |
| NumbersHandling.SumOfSquaresRemove | tcp-server-client/cmd/server/numbers_handler.go:41-64 | the sum of squares of a set is any one member's square plus that of the rest |
| NumbersHandling.SumOfSquaresInsert | tcp-server-client/cmd/server/numbers_handler.go:25-39 | saving a new number adds its square to the sum; saving one already present leaves the sum unchanged, so duplicates do not count |
| NumbersHandling.SeqSumOfSquaresCons | tcp-server-client/cmd/server/numbers_handler.go:51 | summing a stream adds the first number's square to the sum of the rest |
| NumbersHandling.SeqSumOfSquaresOfSet | tcp-server-client/cmd/server/numbers_handler.go:47-58 | a stream that lists a set's members once each, in any order, has the set's sum of squares |
| NumbersHandling.SumOfSquaresAsWritten | tcp-server-client/cmd/server/numbers_handler.go:41-64 | the loop as written stops after the first number it receives, and answers that number's square, or the context error when nothing was sent |
| NumbersHandling.AsWrittenMissesLaterNumbers | tcp-server-client/cmd/server/numbers_handler.go:48-58 | for the set {3, 4} the loop as written never answers 25, the set's sum of squares |
| NumbersHandling.NumbersHandler.constructor | tcp-server-client/cmd/server/numbers_handler.go:19-23 | the handler keeps the set it was given |
| NumbersHandling.NumbersHandler.CalculateSumOfSquares | tcp-server-client/cmd/server/numbers_handler.go:41-64 | the corrected loop (see Findings) answers the wrapped sum of squares of the whole set exactly when the context does not cut the stream short, and otherwise 0 with the wrapped context error. The code as written is `SumOfSquaresAsWritten`, which answers the square of one number |
| NumbersHandling.NumbersHandler.Handle | tcp-server-client/cmd/server/numbers_handler.go:25-39 | the number joins the set, and the answer is the wrapped sum of squares of the set including it, or 0 with the wrapped context error. The sum comes from the corrected `CalculateSumOfSquares` (see Findings); the code as written (`SumOfSquaresAsWritten`) answers the square of one number only |
| ConnectionHandling.RepliesAnswerRequests | tcp-server-client/cmd/server/connection_handler.go:26-61 | the i-th reply answers the i-th read, which decoded cleanly; it carries the sum of squares of the set as it stood plus every number received up to that one, written over that read's buffer. The sum comes from the corrected `CalculateSumOfSquares` (see Findings); the code as written (`SumOfSquaresAsWritten`) answers the square of the first number the stream yields |
| ConnectionHandling.SharedSpec | tcp-server-client/cmd/server/connection_handler.go:26-61 | the run of `HandleConnection` on scripted reads: the replies, the set and the error, until EOF, a failed read, a malformed frame, an expired deadline or a refused write. It has no contract of its own; the lemmas about it state its properties |
| ConnectionHandling.SharedRepliedReadsDecode | tcp-server-client/cmd/server/connection_handler.go:31-46 | every read that got a reply was a frame that decodes, and exactly one number was received per reply |
| ConnectionHandling.SharedUnfold | tcp-server-client/cmd/server/connection_handler.go:31-57 | unfolding step of `SharedSpec`, used by `RepliesAnswerRequests` and `SharedRepliedReadsDecode`: a run with a reply began with a decodable frame, handled in time and written, and the rest of the run continues from the set with that number |
| ConnectionHandling.ElementsCons | tcp-server-client/cmd/server/connection_handler.go:48 | adding the received numbers one by one builds the same set as adding them all at once |
| ConnectionHandling.ReplyDecodes | tcp-server-client/cmd/server/connection_handler.go:53-55 | the client decodes each reply back to the sum of squares it answers |
| ConnectionHandling.StopReason | tcp-server-client/cmd/server/connection_handler.go:31-60 | the loop ends without error exactly at EOF; otherwise it stops at the first read that fails, is malformed, times out or whose answer cannot be written, and returns that error |
| ConnectionHandling.SetKeepsEveryDecodedNumber | tcp-server-client/cmd/server/numbers_handler.go:29-36 | the set only grows, and a number whose handling timed out or whose answer could not be written is still saved |
| ConnectionHandling.SharedStateAcrossConnections | tcp-server-client/cmd/server/connection_handler.go:13-24 | the set is shared: after one connection sends 3 and 4, a second connection sending 3 is answered 25, not 9. This rests on the corrected `CalculateSumOfSquares` (see Findings): the Go server as written answers 9 or 16 here, not 25, as `SumOfSquaresAsWritten` shows |
| ConnectionHandling.SquaresOfThreeAndFour | tcp-server-client/cmd/server/numbers_handler.go:41-64 | the sums of squares of {3} and {3, 4} are 9 and 25 |
| ConnectionHandling.SharedAnswers | tcp-server-client/cmd/server/connection_handler.go:40-57 | unfolding step of `SharedSpec`, used by `StopReason`, `SetKeepsEveryDecodedNumber`, `AnswerNextFrame` and the two-connection examples: a decodable frame that is handled in time and written is answered with the new set's sum, and the run goes on from there. The sum is that of the corrected `CalculateSumOfSquares` (see Findings), not the one square of `SumOfSquaresAsWritten` |
| ConnectionHandling.ConnectionHandler.constructor | tcp-server-client/cmd/server/connection_handler.go:19-24 | the connection handler keeps the numbers handler it was given |
| ConnectionHandling.ConnectionHandler.HandleNumber | tcp-server-client/cmd/server/connection_handler.go:63-68 | the number is saved; the answer is the new sum of squares, or, when the deadline passed, 0 with the wrapped deadline error. The sum comes from the corrected `CalculateSumOfSquares` (see Findings); the code as written (`SumOfSquaresAsWritten`) answers the square of one number only |
| ConnectionHandling.ConnectionHandler.HandleConnection | tcp-server-client/cmd/server/connection_handler.go:26-61 | the set, the frames written and the returned error are those of the connection's specified run |
| ConnectionHandling.ConnectionHandler.AnswerNextFrame | tcp-server-client/cmd/server/connection_handler.go:32-57 | one pass of the loop takes the next scripted read (none when none is left) and, when it answers, one write of the budget; it either answers that read and leaves the rest of the run to the following reads, or ends the run with its error |
| RunningSum.RepliedReadsDecode | tcp-server-client/cmd/server/main.go:112-128 | every read that got a reply was a frame that decodes, and exactly one number was received per reply |
| RunningSum.RunningSpec | tcp-server-client/cmd/server/main.go:106-141 | the run of `handleConnection` from a running sum: the replies and the error, until EOF, a failed read, a malformed frame or a refused write. It has no contract of its own; the lemmas about it state its properties |
| RunningSum.RepliesAreRunningSums | tcp-server-client/cmd/server/main.go:106-141 | the i-th reply carries the wrapped sum of the squares of every number received so far, repeats included, written over that read's buffer |
| RunningSum.StepsAddSquares | tcp-server-client/cmd/server/main.go:129 | adding the squares one at a time, wrapping at each step, gives the wrapped total of all the squares |
| RunningSum.RepliesFollowSteps | tcp-server-client/cmd/server/main.go:112-137 | the i-th reply carries the running sum after the first i + 1 numbers, one wrapping step per number |
| RunningSum.SumAfterCons | tcp-server-client/cmd/server/main.go:129 | the running sum over a list is the step for its first number followed by the running sum over the rest |
| RunningSum.SumAfter | tcp-server-client/cmd/server/main.go:129 | the running `sumOfSquares += number * number` over a list of numbers, wrapping at each step; `StepsAddSquares` states it in closed form |
| RunningSum.RunningUnfold | tcp-server-client/cmd/server/main.go:113-136 | unfolding step of `RunningSpec`, used by `RepliedReadsDecode` and `RepliesFollowSteps`: a run with a reply began with a decodable frame, answered with the running sum after it, and the rest of the run continues from that sum |
| RunningSum.RunningAnswers | tcp-server-client/cmd/server/main.go:121-136 | unfolding step of `RunningSpec`, used by `RunningStopReason` and `AnswerNextFrame`: a decodable frame whose answer can be written is answered with the new running sum, and the run goes on from there |
| RunningSum.RunningStep | tcp-server-client/cmd/server/main.go:129 | one wrapping step followed by the wrapped sum of the rest equals the wrapped sum of the whole list |
| RunningSum.RunningStopReason | tcp-server-client/cmd/server/main.go:112-139 | the loop ends without error exactly at EOF; otherwise it stops at the first read that fails, is malformed or whose answer cannot be written, and returns that error |
| RunningSum.DuplicatesCountEveryTime | tcp-server-client/cmd/server/main.go:129 | sending 3 twice is answered 9 and then 18: a repeated number counts again |
| RunningSum.HandleConnection | tcp-server-client/cmd/server/main.go:106-141 | the frames written and the returned error are those of the connection's specified run, starting from a sum of 0 |
| RunningSum.AnswerNextFrame | tcp-server-client/cmd/server/main.go:113-136 | one pass of the loop takes the next scripted read (none when none is left) and, when it answers, one write of the budget; it either answers that read with the new running sum and leaves the rest of the run to the following reads, or ends the run with its error |
| RunningSum.ReplyToFrame | tcp-server-client/cmd/server/main.go:121-136 | a frame that does not decode ends the pass with its decoding error and writes nothing; one that decodes gives the new running sum, wrapped as Go wraps it, and is answered with its frame over the old one when the budget allows, or ends the pass with the write error |
| Paths.ExtBeforeCharacterised | grpc-files/cmd/server/files_service.go:49 | the backward scan over `path[..i]` returns the suffix that starts at the last dot after the last separator before i, and "" exactly when there is no such dot |
| Paths.DotInLastElementStep | grpc-files/cmd/server/files_service.go:49 | a character that is neither '.' nor a separator does not change whether the last path element has a dot (the induction step of the lemma above) |
| Paths.Ext | grpc-files/cmd/server/files_service.go:49 | `filepath.Ext` returns "" or a suffix of the path that starts with '.'; `ExtCharacterised` states the rest |
| Paths.ExtBefore | grpc-files/cmd/server/files_service.go:49 | the scan of `filepath.Ext` from the end of `path[..i]`: it stops with "" at the front or at a separator and returns the suffix from the first '.' it meets. It has no contract of its own; `ExtBeforeCharacterised` states what it finds |
| Paths.ExtCharacterised | grpc-files/cmd/server/files_service.go:49 | `Ext` returns the suffix from the final dot of the last path element, with no other dot or separator in it, and "" exactly when that element has no dot |
| Paths.SplitNoSeparator | tcp-server-client/cmd/server/dump_file.go:19 | a name without a separator stays whole as the start of the first path element |
| Paths.Split | tcp-server-client/cmd/server/dump_file.go:19 | the elements of a path between separators, at least one; `SplitHasNoSeparator` and `SplitJoinWith` state its properties |
| Paths.Resolve | tcp-server-client/cmd/server/dump_file.go:19 | the element rules of `filepath.Clean`: empty and "." elements vanish, ".." removes the element before it, and a ".." at the root is dropped; `ResolveCanonical` and `ResolveCanonicalIsIdentity` state its properties |
| Paths.JoinWith | tcp-server-client/cmd/server/dump_file.go:19 | elements joined with single separators; `SplitJoinWith` states that `Split` undoes it |
| Paths.JoinPlainNames | tcp-server-client/cmd/server/dump_file.go:19 | joining a plain directory name and a plain file name puts one slash between them |
| Paths.Join | tcp-server-client/cmd/server/dump_file.go:19 | `filepath.Join(dir, name)` is "" exactly when both are empty; otherwise it is the cleaned "dir/name" (`JoinPlainNames`, `JoinIsClean`) |
| Paths.Clean | tcp-server-client/cmd/server/dump_file.go:19 | `filepath.Clean` never returns "": an empty result becomes "." |
| Paths.SplitHasNoSeparator | tcp-server-client/cmd/server/dump_file.go:19 | no piece of a split path holds a separator |
| Paths.ResolveCanonical | tcp-server-client/cmd/server/dump_file.go:19 | resolving separator-free elements onto canonical ones stays canonical: no element is "" or "." or holds a separator, and ".." appears only in a leading run of a relative path |
| Paths.CleanIsCanonical | tcp-server-client/cmd/server/dump_file.go:19 | `Clean` keeps only canonical elements and joins them with single separators, with "/" in front of a rooted path and "." when nothing is left of a relative one |
| Paths.JoinWithStart | tcp-server-client/cmd/server/dump_file.go:19 | joined non-empty elements start with the first element's first character (a helper of `CleanIsCanonical`) |
| Paths.SplitJoinWith | tcp-server-client/cmd/server/dump_file.go:19 | splitting joined, non-empty, separator-free elements gives the elements back |
| Paths.ResolveCanonicalIsIdentity | tcp-server-client/cmd/server/dump_file.go:19 | canonical elements resolve to themselves |
| Paths.CleanIdempotent | tcp-server-client/cmd/server/dump_file.go:19 | `Clean` is idempotent: a cleaned path cleans to itself |
| Paths.CleanOfDot | tcp-server-client/cmd/server/dump_file.go:19 | "." cleans to itself (the empty case of `CleanIdempotent`) |
| Paths.CleanRootedIdempotent | tcp-server-client/cmd/server/dump_file.go:19 | a cleaned rooted path cleans to itself |
| Paths.CleanRelativeIdempotent | tcp-server-client/cmd/server/dump_file.go:19 | a cleaned relative path cleans to itself |
| Paths.JoinIsClean | tcp-server-client/cmd/server/dump_file.go:19 | the path `Join` returns is already clean, so the dump path `NewDumpFile` stores is canonical |
| FileSystem.Removed | tcp-server-client/cmd/server/dump_file.go:32 | removing deletes only the given path, and only when it exists and the call is allowed |
| FileSystem.FileSystem.constructor | tcp-server-client/cmd/server/dump_file.go:42 | the file system starts with the given files and refused calls |
| FileSystem.FileSystem.Create | tcp-server-client/cmd/server/dump_file.go:42-46 | creating a path makes it an empty file, or fails and changes nothing |
| FileSystem.FileSystem.Write | tcp-server-client/cmd/server/dump_file.go:61-64 | writing appends the data to an existing file, or fails with the offset it was at and changes nothing |
| FileSystem.FileSystem.Flush | tcp-server-client/cmd/server/dump_file.go:67-70 | flushing changes no content, and fails exactly when refused |
| FileSystem.FileSystem.Rename | tcp-server-client/cmd/server/dump_file.go:31 | renaming moves the content to the new path and replaces what was there, or fails with an `*os.LinkError` and changes nothing |
| FileSystem.FileSystem.Remove | tcp-server-client/cmd/server/dump_file.go:32 | the files become those left by removing the path, and it succeeds exactly when the file existed and the call was allowed |
| NumbersDump.SortAscending | tcp-server-client/cmd/server/dump_file.go:24 | the numbers end up in ascending order and are a permutation of those given |
| NumbersDump.InsertInto | tcp-server-client/cmd/server/dump_file.go:24 | inserting one more element keeps the sorted prefix sorted and the contents a permutation |
| NumbersDump.Swap | tcp-server-client/cmd/server/dump_file.go:24 | swapping exchanges two elements, keeps every other one, and keeps the contents a permutation |
| NumbersDump.DumpFrames | tcp-server-client/cmd/server/dump_file.go:58-65 | the dump has one frame per number |
| NumbersDump.Dump | tcp-server-client/cmd/server/dump_file.go:55-65 | the content written to `<path>.new`: the frames of the numbers, 10 bytes each, in order; `DumpLayout` and `DumpFrameDecodes` state its layout |
| NumbersDump.Concat | tcp-server-client/cmd/server/dump_file.go:61 | the written bytes are 10 per frame |
| NumbersDump.ConcatBlock | tcp-server-client/cmd/server/dump_file.go:61 | the i-th 10-byte block of the file is the i-th frame written |
| NumbersDump.DumpFrameDecodes | tcp-server-client/cmd/server/dump_file.go:58-65 | each frame of the dump decodes to its number, although the buffer is reused and keeps stale bytes |
| NumbersDump.DumpLayout | tcp-server-client/cmd/server/dump_file.go:55-65 | a dump of n numbers is 10·n bytes, and its i-th block decodes to the i-th number |
| NumbersDump.DumpGrows | tcp-server-client/cmd/server/dump_file.go:58-65 | writing the next number appends exactly one frame, written over the previous one, to the file |
| NumbersDump.WritesAcceptedGrow | tcp-server-client/cmd/server/dump_file.go:58-64 | induction step used by `WriteNumbers`: when the next write is allowed, one more write is accepted |
| NumbersDump.FailedWrite | tcp-server-client/cmd/server/dump_file.go:58-64 | the number of frames written before the first refused write: all of them were accepted, and the one at that index was refused |
| NumbersDump.FailedWriteIs | tcp-server-client/cmd/server/dump_file.go:58-64 | uniqueness step used by `SaveSucceeds` and `WriteNumbers`: the count of `FailedWrite` is the only index where the writes stop |
| NumbersDump.CreateNewDumpOutcome | tcp-server-client/cmd/server/dump_file.go:39-73 | `createNewDump` succeeds exactly when create, every frame write and flush are allowed; the `.new` file then holds the dump, and no other file changes either way |
| NumbersDump.SaveOutcome | tcp-server-client/cmd/server/dump_file.go:23-37 | after a successful `Save` the path holds the dump; only the path and its `.new` file can change |
| NumbersDump.SaveSucceeds | tcp-server-client/cmd/server/dump_file.go:23-37 | saving succeeds exactly when create, every write, flush and rename are allowed; the path then holds the dump of the numbers, no `.new` file is left, and no other file changes |
| NumbersDump.SaveFailureKeepsOldDump | tcp-server-client/cmd/server/dump_file.go:23-52 | a failed save leaves the old dump and every other file as they were; the `.new` file is left behind only when removing it was refused |
| NumbersDump.AppendFrame | tcp-server-client/cmd/server/dump_file.go:59-64 | one pass of the write loop appends the next frame to the dump written so far, or fails at that index and changes nothing |
| NumbersDump.WriteNumbers | tcp-server-client/cmd/server/dump_file.go:55-65 | the file holds the frames of every number before the first refused write, and the loop fails exactly when such a write exists, naming it |
| NumbersDump.DumpFile.constructor | tcp-server-client/cmd/server/dump_file.go:17-21 | the dump path is the directory joined with the file name |
| NumbersDump.DumpFile.Save | tcp-server-client/cmd/server/dump_file.go:23-37 | the numbers are left sorted, as a permutation of those given, and the files and the error are those of a specified save of the sorted numbers |
| NumbersDump.DumpFile.CreateNewDump | tcp-server-client/cmd/server/dump_file.go:39-73 | the new dump goes to `<path>.new`, and the files and the error are those of a specified write of the numbers there |
| FilesService.ListFilesHeader | grpc-files/cmd/server/files_service.go:40-59 | one header per listed file, in order, with its name, size and extension; a listing error is wrapped |
| FilesService.UploadFile | grpc-files/cmd/server/files_service.go:61-76 | the header has the name, the extension and the saved size, and fails exactly when saving fails, wrapping its error |
| FilesService.DownloadFile | grpc-files/cmd/server/files_service.go:78-94 | a read error is wrapped, a missing file is `ErrFileNotFound`, and otherwise the header and the content are those read |
| FilesService.UploadDownloadAgree | grpc-files/cmd/server/files_service.go:61-94 | a file whose read reports the size its upload saved has the same header on download as on upload |
| UploadFileService.UploadFile | grpc-upload-file/cmd/server/files_service.go:34-49 | the header has the name, the extension and the saved size, and fails exactly when saving fails, wrapping its error |
| JsonResponse.UnmarshalResult | json/channel/main.go:125-147 | a result is read exactly when the next two tokens are the key "field" and a string, and its field is that string; otherwise the error names the offending token or the end of input |
| JsonResponse.UnmarshalResponseTotal | json/channel/main.go:149-163 | the total is read exactly when the next token is a number, and the error otherwise names the token or the end of input; one token is taken |
| JsonResponse.ResultsFrom | json/channel/main.go:98-123 | the results list only adds to what was sent and always moves on by at least one token; each token's effect, where an error-free read stops and the order of what it sends are stated by the `Results…` lemmas below |
| JsonResponse.UnmarshalResults | json/channel/main.go:98-123 | the loop sends, fails with and stops at what the recursive reading of the list gives |
| JsonResponse.ResponseFrom | json/channel/main.go:56-93 | reading the document only adds results and errors, never removing any; each key's effect, failed or not, is stated by the `Response…` lemmas below |
| JsonResponse.UnmarshalResponse | json/channel/main.go:56-93 | the loop yields the response and errors that the recursive reading of the document gives |
| JsonResponse.ElementsTokens | json/channel/main.go:172-174 | each result takes four tokens |
| JsonResponse.Records | json/channel/main.go:172-174 | one record per field, in order |
| JsonResponse.ElementsParse | json/channel/main.go:98-123 | the tokens of a list of results send those results, in order |
| JsonResponse.ArrayParses | json/channel/main.go:98-123 | a bracketed list of results is read without error, sends every result in order, and stops after the closing bracket |
| JsonResponse.DocumentRoundTrip | json/channel/main.go:50-96 | reading a well-formed response document gives its results in order and its total, with no error |
| JsonResponse.ResponsePassesOver | json/channel/main.go:86-87 | unfolding step of `ResponseFrom`, used by `DocumentRoundTrip`: a token that is not a string is passed over at the top level |
| JsonResponse.ResponseTakesResults | json/channel/main.go:72-75 | the key "results" sends the list's results and resumes after the list |
| JsonResponse.ResponseTakesTotal | json/channel/main.go:76-80 | the key "total" followed by a number sets the total and resumes after it |
| JsonResponse.OneResultPerBrace | json/channel/main.go:106-117 | a list read without error sends exactly one result per '{' it passed over |
| JsonResponse.ResultsStopAtNonDelimiter | json/channel/main.go:119-120 | a token that is not a delimiter ends the list with an unknown-token error naming it, right after it |
| JsonResponse.ResultsStopAtFailedResult | json/channel/main.go:108-112 | a '{' whose result fails to read ends the list with that error wrapped as a failed result, at the position the result reader reached, keeping what was already sent |
| JsonResponse.ResultsPassOver | json/channel/main.go:115 | '}' and '[' are passed over inside a list |
| JsonResponse.ResultsErrorCases | json/channel/main.go:100-121 | every error of a list is the end of input, a failed result, or a non-delimiter token that is the last one taken |
| JsonResponse.ResultsEndAtFirstBracket | json/channel/main.go:115-117 | a list read without error ends right after the first ']' from where it started |
| JsonResponse.BraceRecords | json/channel/main.go:108-114 | an independent reading of a list: the result each '{' stands for, the string two tokens after it, in document order |
| JsonResponse.ResultsInDocumentOrder | json/channel/main.go:106-117 | every list read without error sends the result of each '{' it passed, in document order, after what was already sent |
| JsonResponse.ResponseReportsFailedResults | json/channel/main.go:72-75 | a failed "results" list is reported as a failed results read, the results it sent stay, and reading goes on where the list stopped |
| JsonResponse.ResponseReportsFailedTotal | json/channel/main.go:76-80 | a "total" key without a number is reported as a failed total read naming the end of input or the token, the total becomes 0, and reading goes on |
| JsonResponse.UnknownKeysAreReported | json/channel/main.go:81-91 | keys other than "results" and "total" change nothing read so far, and each adds one unknown-token error, in order, without stopping the reading |

## Left out

- Concurrency is not modelled: goroutines, the set's mutex, and the
  channels of `StreamOfNumbers` and `unmarshalResponce`. A channel is the
  sequence of values sent on it. Each connection loop runs alone against
  the set.
- The network is not modelled: accepting connections, the gRPC transport
  and the API gateways. A connection is a scripted sequence of reads and a
  write budget.
- Short reads and writes are not modelled: each `Read` yields a whole
  frame, EOF or a reset.
- The one-second handling timeout of `handleNumber` is not modelled as time.
  `HandleConnection` takes the set `expired` of request indices whose
  deadline has passed. `HandleNumber` takes a `timedOut` flag, and a timed-out
  request fails before the set is streamed.
- The `ctx` parameter of `Save` and `createNewDump` is left out, because
  neither reads it.
- `bufio` buffering is not modelled: each buffered write is an append to the
  file that may fail, and `Flush` is a separate call that may fail.
- `newFile.Close` is not modelled, because its error is ignored.
- The atomicity of `os.Rename` and the local file-system implementations
  (`local_file_system.go`) are not part of this model.
- The storage layer of both gRPC services is not modelled: listing, saving
  and reading are function parameters, and file content is a byte sequence
  rather than an `io.Reader`.
- `NumbersHandling.NumbersHandler.Handle`: the error path of `SaveNumber` is
  not reachable, because the only set implementation never fails to save.
  The model proves that branch dead.
- `set_of_numbers.go` and the `SetOfNumbers` interface are not part of this
  model. The handler works on `InmemorySetOfNumbers` directly.
- The context-done path of `StreamOfNumbers` is fixed by a `Context` value
  that says from which look at `ctx.Done()` onwards the context is done.
- `NumbersDump.SortAscending` is an insertion sort, not Go's `sort.Slice`.
  Both give the same sorted permutation, and nothing depends on the order of
  equal keys.
- The JSON decoder's own syntax errors are not modelled: the tokens are
  already lexed, and running out of tokens is the decoder's EOF.
- A non-EOF decoder error makes `unmarshalResponce` report the error and go
  on with a nil token, which would repeat forever. This path is not modelled.
- JSON numbers are integers here. The `float64` total and its conversion by
  `int(tv)` are not modelled.
- `unmarshalResponce` stores the total through its named result `res`, which
  only becomes valid once the function has returned. The model stores the
  total in the response it returns, which is what the code evidently intends.
  The data race is not modelled.
- The `main` functions are not modelled: opening `test.json`, draining the
  channels, and all logging with `log.Println` or `log.Fatalf`.
- Paths are Unix paths: '/' is the only separator. The volume names and
  `\` separators that `path/filepath` handles on Windows are not modelled.
- `ConnectionHandling.ConnectionHandler.HandleConnection` and
  `RunningSum.HandleConnection` do not state which reads are left and what
  write budget remains after the loop. `AnswerNextFrame` states both for
  each pass.
- `NumbersHandling.SumOfSquaresAsWritten` requires a non-empty set. With an
  empty set the loop as written never ends, since both channels are closed
  and a receive never reports a value. `Handle` always saves a number first,
  so that case never arises.

## Findings

| source | as written | input that shows it | evidently intended | confidence | as-written member | corrected member |
|---|---|---|---|---|---|---|
| tcp-server-client/cmd/server/numbers_handler.go:48-58 | `streamIsClosed` receives the channel's "value received" flag, so the loop breaks after the first number it receives. The result is that number's square alone. | the set {3, 4}: the answer is 9 or 16, depending on map order, instead of 25 | sum the squares of every number in the set until the stream closes, as `readNumbers` in `numbers_dump_worker.go` does with the negated flag | high (not executed) | NumbersHandling.AsWrittenMissesLaterNumbers | NumbersHandling.NumbersHandler.CalculateSumOfSquares |
