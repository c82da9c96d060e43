/**
 * The push-to-pull adapter `IterStream` of backup.py: a raw stream over an
 * iterator of byte chunks that keeps one leftover byte string between reads.
 */
module IterStreams {
  import opened Bytes

  /**
   * What the adapter holds between two `readinto` calls: the leftover tail of
   * the last chunk (`None` before the first read) and the chunks the iterator
   * has not produced yet, in order. An exhausted iterator is `rest == []`.
   */
  datatype StreamState = StreamState(leftover: Option<seq<byte>>, rest: seq<seq<byte>>)

  /** The leftover as Python's `self.leftover or ...` sees it: `None` and `b""` are both falsy. */
  function LeftoverBytes(st: StreamState): seq<byte>
  {
    if st.leftover.Some? then st.leftover.value else []
  }

  /** Every byte the adapter can still deliver, in delivery order. */
  function Pending(st: StreamState): seq<byte>
  {
    LeftoverBytes(st) + Flatten(st.rest)
  }

  /** No leftover to serve and nothing left in the iterator. */
  predicate Exhausted(st: StreamState)
  {
    LeftoverBytes(st) == [] && st.rest == []
  }

  /**
   * One `readinto` into a buffer of `length` bytes: the bytes written to the
   * front of the buffer and the state afterwards. A non-empty leftover is
   * served first; otherwise the next chunk is pulled; a `StopIteration` (no
   * chunk left) returns nothing and leaves the state as it was. The bytes
   * served are split at `length`: the prefix is returned, the suffix is kept.
   */
  function Serve(st: StreamState, length: nat): (r: (seq<byte>, StreamState))
    ensures |r.0| <= length
    // conservation: bytes out followed by what is still pending is what was pending
    ensures Pending(st) == r.0 + Pending(r.1)
    // a non-empty leftover is served before the iterator is advanced
    ensures LeftoverBytes(st) != [] ==>
              r.1.rest == st.rest && r.0 + LeftoverBytes(r.1) == LeftoverBytes(st)
    // an empty or absent leftover makes the adapter pull the next chunk
    ensures LeftoverBytes(st) == [] && st.rest != [] ==>
              r.1.rest == st.rest[1..] && r.0 + LeftoverBytes(r.1) == st.rest[0]
    // the split takes as much as the buffer holds
    ensures |r.0| == Min(length, if LeftoverBytes(st) != [] then |LeftoverBytes(st)|
                                 else if st.rest != [] then |st.rest[0]| else 0)
    // end of stream: nothing to serve is a 0 return and the state is kept
    ensures Exhausted(st) ==> r == ([], st)
    ensures AllNonEmpty(st.rest) ==> AllNonEmpty(r.1.rest)
  {
    if LeftoverBytes(st) != [] then
      var chunk := LeftoverBytes(st);
      var k := Min(length, |chunk|);
      assert chunk == chunk[..k] + chunk[k..];
      (chunk[..k], StreamState(Some(chunk[k..]), st.rest))
    else if st.rest == [] then
      ([], st)
    else
      var chunk := st.rest[0];
      var k := Min(length, |chunk|);
      assert chunk == chunk[..k] + chunk[k..];
      (chunk[..k], StreamState(Some(chunk[k..]), st.rest[1..]))
  }

  /**
   * A 0 return into a non-empty buffer, on an iterator whose chunks are all
   * non-empty, happens only at the end of the stream: nothing is pending then
   * or afterwards.
   */
  lemma ZeroReadIsEndOfStream(st: StreamState, length: nat)
    requires length > 0 && AllNonEmpty(st.rest)
    requires Serve(st, length).0 == []
    ensures Exhausted(st) && Pending(st) == [] && Exhausted(Serve(st, length).1)
  {
  }

  /** An empty chunk pulled from the iterator also yields a 0 return, although the stream goes on. */
  lemma EmptyChunkReadsZero(st: StreamState, length: nat)
    requires LeftoverBytes(st) == [] && st.rest != [] && st.rest[0] == []
    ensures Serve(st, length).0 == [] && Serve(st, length).1.rest == st.rest[1..]
  {
  }

  /**
   * The bytes returned by a sequence of `readinto` calls with the given
   * buffer lengths, in call order, and the state after the last of them.
   */
  function ServeAll(st: StreamState, lengths: seq<nat>): (seq<byte>, StreamState)
    decreases |lengths|
  {
    if lengths == [] then ([], st)
    else
      var before := ServeAll(st, lengths[..|lengths| - 1]);
      var step := Serve(before.1, lengths[|lengths| - 1]);
      (before.0 + step.0, step.1)
  }

  /**
   * Conservation over any sequence of reads: everything returned, followed by
   * what is still pending, is exactly what was pending at the start. In
   * particular the output is always a prefix of the concatenated chunks.
   */
  lemma {:induction false} ServeAllConserves(st: StreamState, lengths: seq<nat>)
    ensures Pending(st) == ServeAll(st, lengths).0 + Pending(ServeAll(st, lengths).1)
    decreases |lengths|
  {
    if lengths != [] {
      ServeAllConserves(st, lengths[..|lengths| - 1]);
    }
  }

  /** Once the stream is exhausted, every later read returns 0 bytes and changes nothing. */
  lemma {:induction false} ServeAllAfterEnd(st: StreamState, lengths: seq<nat>)
    requires Exhausted(st)
    ensures ServeAll(st, lengths) == ([], st)
    decreases |lengths|
  {
    if lengths != [] {
      ServeAllAfterEnd(st, lengths[..|lengths| - 1]);
    }
  }

  /** Reads never make a chunk of the iterator empty. */
  lemma {:induction false} NonEmptyKept(st: StreamState, lengths: seq<nat>)
    requires AllNonEmpty(st.rest)
    ensures AllNonEmpty(ServeAll(st, lengths).1.rest)
    decreases |lengths|
  {
    if lengths != [] {
      NonEmptyKept(st, lengths[..|lengths| - 1]);
    }
  }

  /**
   * On chunks that are all non-empty, a sequence of positive-length reads
   * whose last read returns 0 bytes has returned the whole concatenation of
   * the chunks.
   */
  lemma DrainedOnZeroRead(chunks: seq<seq<byte>>, lengths: seq<nat>)
    requires AllNonEmpty(chunks) && lengths != []
    requires forall i :: 0 <= i < |lengths| ==> lengths[i] > 0
    requires Serve(ServeAll(StreamState(None, chunks), lengths[..|lengths| - 1]).1, lengths[|lengths| - 1]).0 == []
    ensures ServeAll(StreamState(None, chunks), lengths).0 == Flatten(chunks)
  {
    var st0 := StreamState(None, chunks);
    var front := lengths[..|lengths| - 1];
    ServeAllConserves(st0, front);
    NonEmptyKept(st0, front);
    ZeroReadIsEndOfStream(ServeAll(st0, front).1, lengths[|lengths| - 1]);
  }

  /** `IterStream(iterable)`: the Python object, with its `leftover` field and its iterator. */
  class IterStream {
    var leftover: Option<seq<byte>>
    /** The chunks the iterator has still to produce; `next` takes the first, and raises `StopIteration` on `[]`. */
    var iterable: seq<seq<byte>>

    function State(): StreamState
      reads this
    {
      StreamState(leftover, iterable)
    }

    constructor (iterable: seq<seq<byte>>)
      ensures State() == StreamState(None, iterable)
      ensures Pending(State()) == Flatten(iterable)
    {
      this.leftover := None;
      this.iterable := iterable;
    }

    /**
     * `readinto(b)`: write at most `b.Length` bytes to the front of `b` and
     * return how many; 0 signals end of stream. The rest of `b` is untouched.
     */
    method ReadInto(b: array<byte>) returns (n: nat)
      modifies this, b
      ensures n <= b.Length
      ensures b[..n] == Serve(old(State()), b.Length).0
      ensures b[n..] == old(b[n..])
      ensures State() == Serve(old(State()), b.Length).1
      ensures old(Pending(State())) == b[..n] + Pending(State())
    {
      var length := b.Length;
      var chunk: seq<byte>;
      if leftover.Some? && leftover.value != [] {
        chunk := leftover.value;
      } else if iterable == [] {
        // next() raised StopIteration
        return 0;
      } else {
        chunk := iterable[0];
        iterable := iterable[1..];
      }
      var k := Min(length, |chunk|);
      var output := chunk[..k];
      leftover := Some(chunk[k..]);
      forall i | 0 <= i < |output| {
        b[i] := output[i];
      }
      n := |output|;
    }
  }
}
