/**
 * The archive producer: a tar.gz stream written into an in-memory buffer
 * that is cut into chunks at file boundaries.
 *
 * The tar and gzip encoders are abstract: opening the archive writes the
 * bytes `opening`, adding the j-th file of the i-th directory of the walk
 * writes the bytes `walk[i][j]`, and closing the archive writes `closing`.
 * Only the buffering and flushing around those writes is modelled.
 */
module Archive {
  import opened Bytes
  import opened IterStreams

  /** The buffer is flushed once it holds strictly more than this (`1 << 20`). */
  const FlushThreshold: nat := 0x10_0000

  /** The writes of every file of the walk, directory after directory. */
  function FileWrites(walk: seq<seq<seq<byte>>>): seq<seq<byte>>
  {
    if walk == [] then [] else walk[0] + FileWrites(walk[1..])
  }

  /**
   * Reference definition of the chunks produced when `buf` is already in the
   * buffer, the files still to be added write `writes`, and closing writes
   * `closing`: after each file the buffer is emitted and cleared if it is
   * larger than the threshold; after closing, what is left is emitted unless
   * it is empty.
   */
  function Chunks(buf: seq<byte>, writes: seq<seq<byte>>, closing: seq<byte>): seq<seq<byte>>
    decreases |writes|
  {
    if writes == [] then
      (if buf + closing == [] then [] else [buf + closing])
    else if |buf + writes[0]| > FlushThreshold then
      [buf + writes[0]] + Chunks([], writes[1..], closing)
    else
      Chunks(buf + writes[0], writes[1..], closing)
  }

  /** Every byte written ends up in exactly one chunk, in order. */
  lemma {:induction false} ChunksConserve(buf: seq<byte>, writes: seq<seq<byte>>, closing: seq<byte>)
    ensures Flatten(Chunks(buf, writes, closing)) == buf + Flatten(writes) + closing
    decreases |writes|
  {
    if writes == [] {
      assert Flatten([buf + closing]) == buf + closing + Flatten([]);
    } else {
      var b := buf + writes[0];
      ChunksConserve(if |b| > FlushThreshold then [] else b, writes[1..], closing);
      if |b| > FlushThreshold {
        FlattenConcat([b], Chunks([], writes[1..], closing));
        assert Flatten([b]) == b + Flatten([]);
      }
      assert Flatten(writes) == writes[0] + Flatten(writes[1..]);
    }
  }

  /** No chunk is empty, so a reader never mistakes one for the end of the stream. */
  lemma {:induction false} ChunksNonEmpty(buf: seq<byte>, writes: seq<seq<byte>>, closing: seq<byte>)
    ensures AllNonEmpty(Chunks(buf, writes, closing))
    decreases |writes|
  {
    if writes != [] {
      var b := buf + writes[0];
      ChunksNonEmpty(if |b| > FlushThreshold then [] else b, writes[1..], closing);
    }
  }

  /** Every chunk but the last holds strictly more than the threshold. */
  lemma {:induction false} ChunksAboveThreshold(buf: seq<byte>, writes: seq<seq<byte>>, closing: seq<byte>)
    ensures forall i :: 0 <= i < |Chunks(buf, writes, closing)| - 1 ==> |Chunks(buf, writes, closing)[i]| > FlushThreshold
    decreases |writes|
  {
    if writes != [] {
      var b := buf + writes[0];
      ChunksAboveThreshold(if |b| > FlushThreshold then [] else b, writes[1..], closing);
    }
  }

  /**
   * With no write larger than `m` and a buffer that starts at or below the
   * threshold, no chunk is larger than the threshold plus `m`: the buffer
   * stays bounded.
   */
  lemma {:induction false} ChunksBounded(buf: seq<byte>, writes: seq<seq<byte>>, closing: seq<byte>, m: nat)
    requires |buf| <= FlushThreshold && |closing| <= m
    requires forall i :: 0 <= i < |writes| ==> |writes[i]| <= m
    ensures forall i :: 0 <= i < |Chunks(buf, writes, closing)| ==> |Chunks(buf, writes, closing)[i]| <= FlushThreshold + m
    decreases |writes|
  {
    if writes != [] {
      var b := buf + writes[0];
      ChunksBounded(if |b| > FlushThreshold then [] else b, writes[1..], closing, m);
    }
  }

  /**
   * If the buffer never passes the threshold before closing, the whole
   * archive is one chunk (or none when it is empty), however long the bytes
   * written on closing are.
   */
  lemma {:induction false} SingleChunkWhenFilesFit(buf: seq<byte>, writes: seq<seq<byte>>, closing: seq<byte>)
    requires |buf + Flatten(writes)| <= FlushThreshold
    ensures var all := buf + Flatten(writes) + closing;
      Chunks(buf, writes, closing) == if all == [] then [] else [all]
    decreases |writes|
  {
    if writes != [] {
      var b := buf + writes[0];
      assert Flatten(writes) == writes[0] + Flatten(writes[1..]);
      assert b + Flatten(writes[1..]) == buf + Flatten(writes);
      assert |b| <= FlushThreshold;
      SingleChunkWhenFilesFit(b, writes[1..], closing);
      assert b + Flatten(writes[1..]) + closing == buf + Flatten(writes) + closing;
    } else {
      assert buf + Flatten(writes) + closing == buf + closing;
    }
  }

  /**
   * If the buffer passes the threshold at the last file, it is flushed there,
   * and a non-empty closing write becomes a chunk of its own.
   */
  lemma FlushAtLastFile(buf: seq<byte>, last: seq<byte>, closing: seq<byte>)
    requires |buf + last| > FlushThreshold && closing != []
    ensures Chunks(buf, [last], closing) == [buf + last, closing]
  {
    assert [last][1..] == [];
    assert [] + closing == closing;
  }

  /** The flat list of writes of the files of `walk[i..]`, started at file `j` of directory `i`. */
  lemma FileWritesFrom(walk: seq<seq<seq<byte>>>, i: nat, j: nat)
    requires i < |walk| && j < |walk[i]|
    ensures (walk[i][j..] + FileWrites(walk[i + 1..]))[0] == walk[i][j]
    ensures (walk[i][j..] + FileWrites(walk[i + 1..]))[1..] == walk[i][j + 1..] + FileWrites(walk[i + 1..])
  {
  }

  /**
   * `dir_to_tgz`: the directory walk, with the flush after every file and the
   * final emission after closing. The chunks are the ones the reference
   * definition gives for the whole walk, so they hold the archive's bytes in
   * order, none is empty, and every one but the last is above the threshold.
   */
  method DirToTgz(opening: seq<byte>, walk: seq<seq<seq<byte>>>, closing: seq<byte>) returns (chunks: seq<seq<byte>>)
    ensures chunks == Chunks(opening, FileWrites(walk), closing)
    ensures Flatten(chunks) == opening + Flatten(FileWrites(walk)) + closing
    ensures AllNonEmpty(chunks)
    ensures forall i :: 0 <= i < |chunks| - 1 ==> |chunks[i]| > FlushThreshold
  {
    ghost var target := Chunks(opening, FileWrites(walk), closing);
    var bio := opening;
    chunks := [];
    var i := 0;
    while i < |walk|
      invariant 0 <= i <= |walk|
      invariant chunks + Chunks(bio, FileWrites(walk[i..]), closing) == target
    {
      var files := walk[i];
      assert FileWrites(walk[i..]) == files + FileWrites(walk[i + 1..]) by {
        assert walk[i..][1..] == walk[i + 1..];
      }
      assert files[0..] == files;
      var j := 0;
      while j < |files|
        invariant 0 <= j <= |files|
        invariant chunks + Chunks(bio, files[j..] + FileWrites(walk[i + 1..]), closing) == target
      {
        FileWritesFrom(walk, i, j);
        bio := bio + files[j];
        if |bio| > FlushThreshold {
          assert chunks + [bio] + Chunks([], files[j + 1..] + FileWrites(walk[i + 1..]), closing) == target;
          chunks := chunks + [bio];
          bio := [];
        }
        j := j + 1;
      }
      assert files[j..] + FileWrites(walk[i + 1..]) == FileWrites(walk[i + 1..]);
      i := i + 1;
    }
    bio := bio + closing;
    if bio != [] {
      chunks := chunks + [bio];
    }
    ChunksConserve(opening, FileWrites(walk), closing);
    ChunksNonEmpty(opening, FileWrites(walk), closing);
    ChunksAboveThreshold(opening, FileWrites(walk), closing);
  }

  /**
   * `main` feeds the archive chunks to the stream adapter: since no chunk is
   * empty, reads of positive length return exactly the archive's bytes
   * before the first zero-length result.
   */
  lemma StreamedArchive(opening: seq<byte>, walk: seq<seq<seq<byte>>>, closing: seq<byte>, lengths: seq<nat>)
    requires lengths != []
    requires forall i :: 0 <= i < |lengths| ==> lengths[i] > 0
    requires var st := StreamState(None, Chunks(opening, FileWrites(walk), closing));
      Serve(ServeAll(st, lengths[..|lengths| - 1]).1, lengths[|lengths| - 1]).0 == []
    ensures ServeAll(StreamState(None, Chunks(opening, FileWrites(walk), closing)), lengths).0
      == opening + Flatten(FileWrites(walk)) + closing
  {
    ChunksNonEmpty(opening, FileWrites(walk), closing);
    ChunksConserve(opening, FileWrites(walk), closing);
    DrainedOnZeroRead(Chunks(opening, FileWrites(walk), closing), lengths);
  }
}
