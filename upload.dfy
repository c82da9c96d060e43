/**
 * The chunked upload driver of backup.py: `Reader` (byte position and running
 * content hash) and `upload_to_dropbox` (session start, appends, finish).
 * The remote service is a recorder of the calls it receives.
 */
module Upload {
  import opened Bytes
  import opened ContentHashing

  /** The block size `upload_to_dropbox` reads with: 4 MiB. */
  const ChunkSize: nat := 4 * 1024 * 1024

  /** `UploadSessionCursor`: the session id and the offset the service has accepted. */
  datatype Cursor = Cursor(sessionId: string, offset: nat)

  /** `CommitInfo`: the destination path. */
  datatype CommitInfo = CommitInfo(path: string)

  /** The metadata `files_upload_session_finish` returns, reduced to what the driver reads. */
  datatype Metadata = Metadata(path: string, contentHash: string)

  /** One call received by the service. */
  datatype Call =
    | Start(payload: seq<byte>)
    | Append(payload: seq<byte>, sessionId: string, offset: nat)
    | Finish(payload: seq<byte>, cursor: Cursor, commit: CommitInfo)

  /**
   * The blocks a reader with block size `n` delivers from `s` after a first
   * read: non-empty reads of `n` bytes, the last one possibly shorter.
   */
  function MoreBlocks(s: seq<byte>, n: nat): seq<seq<byte>>
    requires n > 0
    decreases |s|
  {
    if s == [] then [] else [s[..Min(n, |s|)]] + MoreBlocks(s[Min(n, |s|)..], n)
  }

  /** Every block the driver sends: the first read (possibly empty) and then each non-empty read. */
  function Blocks(s: seq<byte>, n: nat): seq<seq<byte>>
    requires n > 0
  {
    [s[..Min(n, |s|)]] + MoreBlocks(s[Min(n, |s|)..], n)
  }

  lemma {:induction false} MoreBlocksShape(s: seq<byte>, n: nat)
    requires n > 0
    ensures Flatten(MoreBlocks(s, n)) == s
    ensures AllNonEmpty(MoreBlocks(s, n))
    ensures forall i :: 0 <= i < |MoreBlocks(s, n)| ==> |MoreBlocks(s, n)[i]| <= n
    ensures forall i :: 0 <= i < |MoreBlocks(s, n)| - 1 ==> |MoreBlocks(s, n)[i]| == n
    decreases |s|
  {
    if s != [] {
      var k := Min(n, |s|);
      MoreBlocksShape(s[k..], n);
      var tail := MoreBlocks(s[k..], n);
      assert MoreBlocks(s, n) == [s[..k]] + tail;
      assert tail != [] ==> s[k..] != [] && k == n;
      assert s == s[..k] + s[k..];
    }
  }

  /**
   * The blocks are determined by the content alone: they join back to it,
   * each holds at most `n` bytes, all but the last hold exactly `n`, and only
   * the first can be empty (when the content is).
   */
  lemma BlocksShape(s: seq<byte>, n: nat)
    requires n > 0
    ensures Flatten(Blocks(s, n)) == s
    ensures |Blocks(s, n)| > 0 && (Blocks(s, n)[0] == [] <==> s == [])
    ensures forall i :: 0 < i < |Blocks(s, n)| ==> Blocks(s, n)[i] != []
    ensures forall i :: 0 <= i < |Blocks(s, n)| ==> |Blocks(s, n)[i]| <= n
    ensures forall i :: 0 <= i < |Blocks(s, n)| - 1 ==> |Blocks(s, n)[i]| == n
  {
    var k := Min(n, |s|);
    MoreBlocksShape(s[k..], n);
    var tail := MoreBlocks(s[k..], n);
    assert Blocks(s, n) == [s[..k]] + tail;
    assert tail != [] ==> s[k..] != [] && k == n;
    assert Flatten(Blocks(s, n)) == s[..k] + Flatten(tail);
    assert s == s[..k] + s[k..];
  }

  /** One more non-empty read: it is the next block, and the rest of the stream gives the blocks after it. */
  lemma MoreBlocksStep(chunk: seq<byte>, rest: seq<byte>, n: nat)
    requires n > 0 && chunk != []
    requires chunk == (chunk + rest)[..Min(n, |chunk + rest|)]
    ensures MoreBlocks(chunk + rest, n) == [chunk] + MoreBlocks(rest, n)
  {
    assert (chunk + rest)[|chunk|..] == rest;
  }

  /**
   * The calls that carry `blocks` in session `sid`: a session start with the
   * first block, then one append per later block, each at the total length
   * of the blocks before it.
   */
  function Opening(blocks: seq<seq<byte>>, sid: string): seq<Call>
    requires |blocks| > 0
    decreases |blocks|
  {
    if |blocks| == 1 then [Start(blocks[0])]
    else
      var before := blocks[..|blocks| - 1];
      Opening(before, sid) + [Append(blocks[|blocks| - 1], sid, |Flatten(before)|)]
  }

  /** The calls of one upload of `blocks` to `path` in session `sid`: start, appends, finish. */
  function Protocol(blocks: seq<seq<byte>>, sid: string, path: string): seq<Call>
    requires |blocks| > 0
  {
    Opening(blocks, sid) + [Finish([], Cursor(sid, |Flatten(blocks)|), CommitInfo(path))]
  }

  /** The bytes carried by a list of calls, in call order. */
  function SentBytes(calls: seq<Call>): seq<byte>
  {
    if calls == [] then [] else calls[0].payload + SentBytes(calls[1..])
  }

  lemma {:induction false} SentBytesConcat(a: seq<Call>, b: seq<Call>)
    ensures SentBytes(a + b) == SentBytes(a) + SentBytes(b)
  {
    if a == [] {
      assert a + b == b;
    } else {
      assert (a + b)[0] == a[0];
      assert (a + b)[1..] == a[1..] + b;
      SentBytesConcat(a[1..], b);
    }
  }

  /**
   * Call `0` starts the session with block `0`; call `i > 0` appends block
   * `i` at the total length of blocks `0..i-1`.
   */
  lemma {:induction false} OpeningAt(blocks: seq<seq<byte>>, sid: string)
    requires |blocks| > 0
    ensures |Opening(blocks, sid)| == |blocks|
    ensures Opening(blocks, sid)[0] == Start(blocks[0])
    ensures forall i :: 0 < i < |blocks| ==>
              Opening(blocks, sid)[i] == Append(blocks[i], sid, |Flatten(blocks[..i])|)
    decreases |blocks|
  {
    if |blocks| > 1 {
      var n := |blocks| - 1;
      var before := blocks[..n];
      OpeningAt(before, sid);
      forall i | 0 < i < n
        ensures Opening(blocks, sid)[i] == Append(blocks[i], sid, |Flatten(blocks[..i])|)
      {
        assert blocks[..i] == before[..i];
        assert Opening(blocks, sid)[i] == Opening(before, sid)[i];
      }
    }
  }

  /** The payloads of the session's calls join to the blocks' bytes. */
  lemma {:induction false} OpeningSends(blocks: seq<seq<byte>>, sid: string)
    requires |blocks| > 0
    ensures SentBytes(Opening(blocks, sid)) == Flatten(blocks)
    decreases |blocks|
  {
    if |blocks| == 1 {
      assert SentBytes([Start(blocks[0])]) == blocks[0] + SentBytes([]);
      assert Flatten(blocks) == blocks[0] + Flatten([]);
    } else {
      var n := |blocks| - 1;
      var before := blocks[..n];
      OpeningSends(before, sid);
      var last := Append(blocks[n], sid, |Flatten(before)|);
      SentBytesConcat(Opening(before, sid), [last]);
      assert SentBytes([last]) == blocks[n] + SentBytes([]);
      assert blocks == before + [blocks[n]];
      FlattenSnoc(before, blocks[n]);
    }
  }

  /**
   * The offset protocol: the session starts with block 0; the call for block
   * `i` passes the total length of blocks `0..i-1`; finish passes an empty
   * payload and the total length of all blocks; the payloads join to the
   * blocks' bytes.
   */
  lemma ProtocolOffsets(blocks: seq<seq<byte>>, sid: string, path: string)
    requires |blocks| > 0
    ensures |Protocol(blocks, sid, path)| == |blocks| + 1
    ensures Protocol(blocks, sid, path)[0] == Start(blocks[0])
    ensures forall i :: 0 < i < |blocks| ==>
              Protocol(blocks, sid, path)[i] == Append(blocks[i], sid, |Flatten(blocks[..i])|)
    ensures Protocol(blocks, sid, path)[|blocks|] ==
              Finish([], Cursor(sid, |Flatten(blocks)|), CommitInfo(path))
    ensures SentBytes(Protocol(blocks, sid, path)) == Flatten(blocks)
  {
    OpeningAt(blocks, sid);
    OpeningSends(blocks, sid);
    var fin := Finish([], Cursor(sid, |Flatten(blocks)|), CommitInfo(path));
    SentBytesConcat(Opening(blocks, sid), [fin]);
    assert SentBytes([fin]) == [] + SentBytes([]);
  }

  /**
   * What the service receives when the whole content `s` is uploaded: the
   * payloads join back to `s` and finish reports `|s|` as the final offset.
   */
  lemma UploadSendsContent(s: seq<byte>, sid: string, path: string)
    ensures SentBytes(Protocol(Blocks(s, ChunkSize), sid, path)) == s
    ensures |Protocol(Blocks(s, ChunkSize), sid, path)| == |Blocks(s, ChunkSize)| + 1
    ensures Protocol(Blocks(s, ChunkSize), sid, path)[|Blocks(s, ChunkSize)|] ==
              Finish([], Cursor(sid, |s|), CommitInfo(path))
  {
    BlocksShape(s, ChunkSize);
    ProtocolOffsets(Blocks(s, ChunkSize), sid, path);
  }

  /**
   * The stream `upload_to_dropbox` reads from. Its `read(size)` returns the
   * next `size` bytes, or all that remain when fewer do: the guarantee of the
   * buffered reader the driver is given, stated here as an assumption.
   */
  class Stream {
    var rest: seq<byte>

    constructor (content: seq<byte>)
      ensures rest == content
    {
      rest := content;
    }

    method Read(size: nat) returns (data: seq<byte>)
      modifies this
      ensures data == old(rest)[..Min(size, |old(rest)|)]
      ensures rest == old(rest)[|data|..]
    {
      data := rest[..Min(size, |rest|)];
      rest := rest[|data|..];
    }
  }

  /** `Reader(f, chunk_size)`: reads blocks, counting bytes and hashing each non-empty block. */
  class Reader {
    const f: Stream
    const chunkSize: nat
    /** SHA-256, left abstract. */
    const sha: seq<byte> -> seq<byte>
    var pos: nat
    /** The bytes fed so far to the outer hash object `content_hash`. */
    var hashed: seq<byte>
    /** Every block `Get` has returned, in order. */
    ghost var blocks: seq<seq<byte>>

    ghost predicate Valid()
      reads this
    {
      pos == |Flatten(blocks)| && hashed == Digests(sha, blocks)
    }

    constructor (f: Stream, chunkSize: nat, sha: seq<byte> -> seq<byte>)
      ensures Valid() && blocks == [] && pos == 0
      ensures this.f == f && this.chunkSize == chunkSize && this.sha == sha
    {
      this.f := f;
      this.chunkSize := chunkSize;
      this.sha := sha;
      pos := 0;
      hashed := [];
      blocks := [];
    }

    /** `get()`: read one block; `pos` grows by its length; only a non-empty block is hashed. */
    method Get() returns (data: seq<byte>)
      requires Valid()
      modifies this, f
      ensures Valid() && blocks == old(blocks) + [data]
      ensures data == old(f.rest)[..Min(chunkSize, |old(f.rest)|)]
      ensures f.rest == old(f.rest)[|data|..]
      ensures pos == old(pos) + |data|
      ensures hashed == if data == [] then old(hashed) else old(hashed) + sha(data)
    {
      data := f.Read(chunkSize);
      if data != [] {
        hashed := hashed + sha(data);
      }
      pos := pos + |data|;
      FlattenSnoc(blocks, data);
      DigestsSnoc(sha, blocks, data);
      blocks := blocks + [data];
    }

    /** `get_content_hash()`: the hex digest of the outer hash over the per-block digests read so far. */
    function GetContentHash(): (h: string)
      reads this
      requires Valid()
      ensures h == HexDigest(ContentHash(sha, blocks))
      ensures |h| == 2 * |ContentHash(sha, blocks)|
    {
      HexDigest(sha(hashed))
    }
  }

  /** The remote service: it records every call and answers with its own session id and content hash. */
  class Service {
    const sessionId: string
    const reportedHash: string
    var calls: seq<Call>

    constructor (sessionId: string, reportedHash: string)
      ensures this.sessionId == sessionId && this.reportedHash == reportedHash && calls == []
    {
      this.sessionId := sessionId;
      this.reportedHash := reportedHash;
      calls := [];
    }

    method SessionStart(data: seq<byte>) returns (sid: string)
      modifies this
      ensures calls == old(calls) + [Start(data)] && sid == sessionId
    {
      calls := calls + [Start(data)];
      sid := sessionId;
    }

    method SessionAppend(data: seq<byte>, sid: string, offset: nat)
      modifies this
      ensures calls == old(calls) + [Append(data, sid, offset)]
    {
      calls := calls + [Append(data, sid, offset)];
    }

    method SessionFinish(data: seq<byte>, cursor: Cursor, commit: CommitInfo) returns (m: Metadata)
      modifies this
      ensures calls == old(calls) + [Finish(data, cursor, commit)]
      ensures m == Metadata(commit.path, reportedHash)
    {
      calls := calls + [Finish(data, cursor, commit)];
      m := Metadata(commit.path, reportedHash);
    }
  }

  /**
   * Where the append loop stands: `sent` are the blocks passed to the service
   * so far, `chunk` is the block just read and `rest` the stream after it;
   * together they make up `plan`, and `calls` is what the service received.
   */
  ghost predicate LoopState(plan: seq<seq<byte>>, sid: string, sent: seq<seq<byte>>, chunk: seq<byte>,
                            rest: seq<byte>, calls: seq<Call>)
  {
    && |sent| > 0
    && chunk == (chunk + rest)[..Min(ChunkSize, |chunk + rest|)]
    && sent + MoreBlocks(chunk + rest, ChunkSize) == plan
    && calls == Opening(sent, sid)
  }

  /** The first two reads of the driver put it in LoopState, with the session started. */
  lemma DriverStart(content: seq<byte>, first: seq<byte>, chunk: seq<byte>, rest: seq<byte>, sid: string)
    requires first == content[..Min(ChunkSize, |content|)]
    requires chunk == content[|first|..][..Min(ChunkSize, |content[|first|..]|)]
    requires rest == content[|first|..][|chunk|..]
    ensures LoopState(Blocks(content, ChunkSize), sid, [first], chunk, rest, [Start(first)])
  {
    assert chunk + rest == content[|first|..];
  }

  /** One pass of the append loop keeps LoopState. */
  lemma DriverStep(plan: seq<seq<byte>>, sid: string, sent: seq<seq<byte>>, chunk: seq<byte>,
                   rest: seq<byte>, calls: seq<Call>, next: seq<byte>, rest': seq<byte>)
    requires LoopState(plan, sid, sent, chunk, rest, calls) && chunk != []
    requires next == rest[..Min(ChunkSize, |rest|)] && rest' == rest[|next|..]
    ensures LoopState(plan, sid, sent + [chunk], next, rest', calls + [Append(chunk, sid, |Flatten(sent)|)])
    ensures |Flatten(sent + [chunk])| == |Flatten(sent)| + |chunk|
  {
    MoreBlocksStep(chunk, rest, ChunkSize);
    assert next + rest' == rest;
    assert sent + ([chunk] + MoreBlocks(rest, ChunkSize)) == (sent + [chunk]) + MoreBlocks(rest, ChunkSize);
    assert (sent + [chunk])[..|sent|] == sent;
    FlattenSnoc(sent, chunk);
  }

  /** The append loop has stopped on an empty read: the plan is exactly the blocks sent. */
  lemma DriverEnd(plan: seq<seq<byte>>, sid: string, sent: seq<seq<byte>>, rest: seq<byte>, calls: seq<Call>,
                  path: string)
    requires LoopState(plan, sid, sent, [], rest, calls)
    ensures rest == [] && plan == sent
    ensures calls + [Finish([], Cursor(sid, |Flatten(sent)|), CommitInfo(path))] == Protocol(plan, sid, path)
  {
    assert [] + rest == rest;
    assert MoreBlocks(rest, ChunkSize) == [];
    assert sent + [] == sent;
  }

  /**
   * `upload_to_dropbox(dbx, target_path, f)`: start a session with the first
   * block, append every further non-empty block at the current offset, then
   * finish with an empty payload at the final offset. Besides the finish
   * metadata it returns whether the local content hash equals the one the
   * service reported (the source only prints a message when it does not).
   */
  method UploadToDropbox(dbx: Service, targetPath: string, f: Stream, sha: seq<byte> -> seq<byte>)
    returns (m: Metadata, hashMatches: bool)
    modifies dbx, f
    ensures dbx.calls == old(dbx.calls) + Protocol(Blocks(old(f.rest), ChunkSize), dbx.sessionId, targetPath)
    ensures f.rest == []
    ensures m == Metadata(targetPath, dbx.reportedHash)
    ensures hashMatches <==> HexDigest(ContentHash(sha, Blocks(old(f.rest), ChunkSize))) == dbx.reportedHash
  {
    ghost var content := f.rest;
    var reader := new Reader(f, ChunkSize, sha);

    var first := reader.Get();
    var sid := dbx.SessionStart(first);
    var cursor := Cursor(sid, reader.pos);
    var commit := CommitInfo(targetPath);

    var chunk := reader.Get();
    DriverStart(content, first, chunk, f.rest, sid);
    ghost var plan := Blocks(content, ChunkSize);
    ghost var sent: seq<seq<byte>>, issued: seq<Call>;
    cursor, sent, issued := AppendBlocks(dbx, reader, f, plan, sid, old(dbx.calls), [first], [Start(first)], chunk, cursor);

    DriverEnd(plan, sid, sent, f.rest, issued, targetPath);
    m := dbx.SessionFinish([], cursor, commit);
    assert dbx.calls == old(dbx.calls) + (issued + [Finish([], cursor, commit)]);
    var localHash := reader.GetContentHash();
    assert reader.blocks == plan + [[]];
    ContentHashIgnoresFinalEmpty(sha, plan);
    assert localHash == HexDigest(ContentHash(sha, plan));
    hashMatches := localHash == m.contentHash;
  }

  /**
   * The append phase of `upload_to_dropbox`, the loop `while chunk :=
   * reader.get()`: each non-empty block is appended at the cursor's offset,
   * and the offset then becomes the reader's position. It stops at the first
   * empty read.
   */
  method AppendBlocks(dbx: Service, reader: Reader, f: Stream, ghost plan: seq<seq<byte>>, sid: string,
                      ghost calls0: seq<Call>, ghost sent0: seq<seq<byte>>, ghost issued0: seq<Call>,
                      chunk0: seq<byte>, cursor0: Cursor)
    returns (cursor: Cursor, ghost sent: seq<seq<byte>>, ghost issued: seq<Call>)
    requires reader.f == f && reader.chunkSize == ChunkSize
    requires reader.Valid() && reader.blocks == sent0 + [chunk0]
    requires dbx.calls == calls0 + issued0 && LoopState(plan, sid, sent0, chunk0, f.rest, issued0)
    requires cursor0 == Cursor(sid, |Flatten(sent0)|) && reader.pos == cursor0.offset + |chunk0|
    modifies dbx, reader, f
    ensures reader.Valid() && reader.blocks == sent + [[]]
    ensures dbx.calls == calls0 + issued && LoopState(plan, sid, sent, [], f.rest, issued)
    ensures cursor == Cursor(sid, |Flatten(sent)|)
  {
    sent, issued := sent0, issued0;
    cursor := cursor0;
    var chunk := chunk0;
    while chunk != []
      invariant reader.Valid() && reader.blocks == sent + [chunk]
      invariant dbx.calls == calls0 + issued && LoopState(plan, sid, sent, chunk, f.rest, issued)
      invariant cursor == Cursor(sid, |Flatten(sent)|)
      invariant reader.pos == cursor.offset + |chunk|
      decreases |chunk| + |f.rest|
    {
      dbx.SessionAppend(chunk, cursor.sessionId, cursor.offset);
      ghost var rest := f.rest;
      cursor := cursor.(offset := reader.pos);
      var next := reader.Get();
      DriverStep(plan, sid, sent, chunk, rest, issued, next, f.rest);
      issued := issued + [Append(chunk, sid, |Flatten(sent)|)];
      sent := sent + [chunk];
      chunk := next;
    }
  }
}
