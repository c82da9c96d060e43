# dropbox_backupper: the streaming backup pipeline in Dafny

`backup.py` backs up a directory tree to Dropbox in three stages:

- `dir_to_tgz` writes a tar.gz archive of the tree into an in-memory buffer. After each file it cuts the buffer into a chunk once the buffer holds more than 1 MiB.
- `IterStream` (wrapped by `iterable_to_stream`) turns that iterator of chunks into a readable stream. Its `readinto` serves any requested size and keeps the unread tail of a chunk as `leftover`.
- `upload_to_dropbox` uses a `Reader` to read the stream in 4 MiB blocks. It tracks the byte position and a block-wise SHA-256 content hash, and drives an upload session (start, append at each offset, finish). At the end it compares its content hash with the one Dropbox reports.

The model has five modules:

- `Bytes` (`bytes.dfy`): bytes, `Option`, and joining chunks (`Flatten`).
- `IterStreams` (`iter_stream.dfy`): a pure step function `Serve` for one `readinto`, lemmas over any sequence of reads, and the class `IterStream`. Its `ReadInto` method fills an `array<byte>` and updates the `leftover` field and the iterator.
- `ContentHashing` (`content_hash.dfy`): the hash-of-digests scheme over an abstract `sha` function, and the lower-case hex encoding with its decoder.
- `Upload` (`upload.dfy`):
  - the classes `Stream`, `Reader` and `Service`;
  - the reference call sequence `Protocol`;
  - the methods `UploadToDropbox` and `AppendBlocks` (the `while chunk := reader.get()` loop), proved to issue exactly `Protocol` of the content's blocks.
- `Archive` (`archive.dfy`): the reference chunking function `Chunks` and the method `DirToTgz` with its nested walk loops. `DirToTgz` is proved to produce exactly `Chunks`. Lemmas about `Chunks` give conservation, non-empty chunks, the threshold and a size bound.

## Model

| member | source | states |
|---|---|---|
| IterStreams.Serve | backup.py:21-29 | One `readinto` returns at most `len(b)` bytes. A non-empty leftover is served before the iterator is advanced. An empty or absent leftover (`self.leftover or next(...)`) pulls the next chunk. The served chunk is split at `len(b)`: the prefix is returned and the suffix is kept. The length returned is exactly `min(len(b), len(chunk))`. StopIteration returns 0 and changes nothing. Bytes returned plus bytes still pending equal bytes pending before. |
| IterStreams.ZeroReadIsEndOfStream | backup.py:21-29 | If no chunk is empty, a 0 return into a non-empty buffer happens only when leftover and iterator are both exhausted. Nothing is pending then or afterwards. |
| IterStreams.EmptyChunkReadsZero | backup.py:24-27 | An empty chunk pulled from the iterator also gives a 0 return, which a reader takes for end of stream, although chunks may follow. This is why the archive producer never yields an empty chunk (`Archive.ChunksNonEmpty`). |
| IterStreams.ServeAllConserves | backup.py:21-29 | For any sequence of read sizes, everything returned followed by what is still pending is exactly what was pending at the start. So the output is always an in-order prefix of the chunks, with no gap or duplicate. |
| IterStreams.ServeAllAfterEnd | backup.py:28-29 | Once leftover and iterator are exhausted, every later read returns 0 bytes and changes nothing. |
| IterStreams.NonEmptyKept | backup.py:24-25 | Reads never leave an empty chunk in the iterator when it started with none. |
| IterStreams.DrainedOnZeroRead | backup.py:21-29 | If no chunk is empty and every read size is positive, the reads up to the first 0 return have returned exactly the concatenation of all chunks. |
| IterStreams.IterStream.constructor | backup.py:14-16 | A new adapter has no leftover and holds the whole iterator. |
| IterStreams.IterStream.ReadInto | backup.py:21-29 | Writes `Serve`'s output to `b[:n]` and leaves the rest of `b` untouched. The new `leftover`/iterator state is `Serve`'s new state. The pending bytes shrink by exactly what was written. |
| ContentHashing.DigestsOfNonEmpty | backup.py:49-54 | The bytes fed to the outer hash are the per-block digests of the non-empty blocks only, concatenated in read order (the join of `sha(b)` over the non-empty blocks `b`). |
| ContentHashing.DigestsAsFlatten | backup.py:51-52 | On non-empty blocks, the outer hash input is the join of the per-block digests, one per block, in read order. |
| ContentHashing.ContentHashIgnoresFinalEmpty | backup.py:51-52 | The empty read that ends the upload loop does not change the content hash. |
| ContentHashing.DigestsSnoc | backup.py:49-54 | Reading one more block appends its digest to the outer hash input, or nothing when the block is empty. |
| ContentHashing.HexRoundTrip | backup.py:56-57 | Decoding `hexdigest()` text gives back the digest bytes. |
| ContentHashing.HexDigestInjective | backup.py:56-57 | Two digests have the same hex text if and only if they are equal. So comparing hex strings compares digests. |
| Upload.BlocksShape | backup.py:49-54 | The blocks read from a stream join back to its content. Each holds at most 4 MiB, all but the last hold exactly that much, and only the first can be empty (exactly when the content is). |
| Upload.OpeningAt | backup.py:65-73 | Call 0 starts the session with block 0. Call `i > 0` appends block `i` at the total length of blocks `0..i-1`. |
| Upload.OpeningSends | backup.py:65-73 | The payloads of the start and append calls join to the blocks' bytes. |
| Upload.ProtocolOffsets | backup.py:60-75 | The whole call sequence: start, the appends with their offsets, then finish with an empty payload at the total length and the target path. The payloads join to the content. |
| Upload.UploadSendsContent | backup.py:60-75 | For any content, the bytes sent to the service are the content. Finish is called once, after one call per block, with the content's length as its offset. |
| Upload.Stream.Read | backup.py:50 | `read(size)` returns the next `min(size, remaining)` bytes and consumes them. |
| Upload.Reader.constructor | backup.py:43-47 | A new reader is at position 0 with an empty outer hash input. |
| Upload.Reader.Get | backup.py:49-54 | `get()` returns the next block and advances `pos` by its length. The outer hash input grows by the block's digest only when the block is non-empty. Keeps the invariant that `pos` is the total length read and the hash input holds the digests of all blocks read. |
| Upload.Reader.GetContentHash | backup.py:56-57 | The result is the hex text of the outer digest over the per-block digests of everything read so far. Its length is twice the length of the outer digest. |
| Upload.Service.SessionStart | backup.py:65 | Records the start call with its payload and answers with the session id. |
| Upload.Service.SessionAppend | backup.py:72 | Records the append call with its payload, session id and offset. |
| Upload.Service.SessionFinish | backup.py:75 | Records the finish call and answers with the commit path and the service's own content hash. |
| Upload.DriverStep | backup.py:71-73 | One pass of the append loop: the block is appended at the offset equal to the bytes sent so far, and the loop state is kept. |
| Upload.DriverEnd | backup.py:71-75 | When the loop stops on an empty read, the stream is exhausted. The calls made, followed by finish, are exactly the reference sequence. |
| Upload.AppendBlocks | backup.py:71-73 | The append loop: every non-empty block is appended at the cursor offset, and the offset then becomes the reader's position. It ends on the first empty read with the cursor at the total length sent. |
| Upload.UploadToDropbox | backup.py:60-78 | The service receives exactly the reference call sequence for the stream's 4 MiB blocks, and the stream is fully consumed. The finish metadata is returned. `hashMatches` is true iff the hex content hash computed from the content equals the one the service reported. |
| Archive.ChunksConserve | backup.py:81-97 | Every byte written to the buffer ends up in exactly one chunk, in write order. |
| Archive.ChunksNonEmpty | backup.py:92-97 | No chunk is empty: a flush only happens above the threshold, and the final emission only when `bio.tell()` is non-zero. |
| Archive.ChunksAboveThreshold | backup.py:92-95 | Every chunk but the last holds strictly more than `1 << 20` bytes. |
| Archive.ChunksBounded | backup.py:92-97 | If no file write and no closing write exceeds `m`, and the buffer starts at or below the threshold, then no chunk exceeds the threshold plus `m`. |
| Archive.SingleChunkWhenFilesFit | backup.py:92-97 | If the buffer stays at or below the threshold until the archive is closed, the whole archive is one chunk (none when empty), however much is written on closing. |
| Archive.FlushAtLastFile | backup.py:90-97 | If the buffer passes the threshold at the last file, it is flushed there, and a non-empty closing write becomes a second chunk. |
| Archive.DirToTgz | backup.py:81-97 | The nested walk loops with the per-file flush and the final emission produce exactly the reference chunking of the whole walk. So the chunks hold the archive's bytes in order, none is empty, and every one but the last is above the threshold. |
| Archive.StreamedArchive | backup.py:100-102 | Feeding the archive chunks to the stream adapter, positive-length reads up to the first 0 return give exactly the archive's bytes. |

## Left out

- **Dropbox SDK and the network.** `Service` is a recorder that appends each call it receives and answers with a fixed session id and a fixed reported content hash. Server-side session semantics and transport errors are not modelled.
- **hashlib.** SHA-256 is an uninterpreted function `sha` passed as a parameter, and nothing is assumed about it.
- **SHA-256 collisions.** `UploadToDropbox`'s hash result can only be stated as equality of hex text computed through `sha`, not as "the service received the same bytes".
- **tarfile, gzip and os.walk.** The archive encoders are abstract byte writes: `opening` when the archive is opened, one write per file (`walk[i][j]` for the j-th file of the i-th directory), and `closing` when it is closed. File names, `os.path.relpath` and the `print(rf)` of each path are left out.
- **Laziness of the generator.** `dir_to_tgz` yields each chunk as soon as it is cut. `DirToTgz` returns the list of all chunks, so the interleaving of archiving and uploading is not captured, only the order of the chunks.
- **io.BufferedReader.** `iterable_to_stream` wraps an `IterStream` in a `BufferedReader`, which is not modelled. In `Upload` the stream is a `Stream` whose `read(size)` returns `min(size, remaining)` bytes. That is the buffered reader's guarantee, taken as the model of `f`. `Archive.StreamedArchive` connects the archive to the raw `readinto` steps instead.
- **`IterStream.readable` and `iterable_to_stream`'s `Iterable`/`Iterator` test.** These are thin wrappers that are not modelled. An iterator is a sequence of chunks, and `StopIteration` is the empty sequence.
- **The hash comparison.** The source only prints a message when the hashes differ and still returns the metadata. `UploadToDropbox` returns the metadata together with `hashMatches` and has no error path. The model adds no error path the code lacks.
- **`main` and the command-line entry point.** These are argument plumbing. Only the composition in `main` is stated, by `Archive.StreamedArchive`.
- **Block-boundary invariance of the content hash.** For an arbitrary `sha`, the hash-of-digests scheme is not invariant under a different split of the same bytes into blocks. The model states its weaker fact instead: the blocks, and hence the hash, are a function of the content alone (`Upload.BlocksShape`, `Upload.UploadToDropbox`).
- **The flush threshold.** The code flushes when the buffer holds strictly more than `1 << 20` bytes, so non-final chunks are strictly larger than the threshold. An archive larger than the threshold is one chunk only when every byte past the threshold is written on closing (`Archive.SingleChunkWhenFilesFit`). When the buffer passes the threshold at a file, the check after that file flushes it, even after the last file, and a non-empty closing write then becomes a chunk of its own (`Archive.FlushAtLastFile`). The model follows the code.
- **The leftover after a zero-length read.** A `readinto` into an empty buffer keeps the whole pulled chunk as `leftover`, so a leftover is not always shorter than its chunk. The model follows the code (`IterStreams.Serve`).
